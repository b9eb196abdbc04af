/**
  Declarators: the type printer (src/cc1/type.c) and the declarator parser (src/cc1/parse_type.c).

  A parameter list is one opaque token, and so is the constant size of an array.  The words before the
  declarator (base type and its own qualifiers) are the base type of both directions.
*/
module DeclSyntax {
  import opened Common

  datatype Quals = Quals(cons: bool, vol: bool, restr: bool)

  const NO_QUALS := Quals(false, false, false)

  function Or(a: Quals, b: Quals): Quals {
    Quals(a.cons || b.cons, a.vol || b.vol, a.restr || b.restr)
  }

  datatype Token =
    | Star | Caret | Const | Volatile | Restrict
    | OpenParen | CloseParen | OpenSquare | CloseSquare
    | Ident(name: string) | Size(n: nat) | Params(id: nat)

  predicate IsQual(t: Token) {
    t.Const? || t.Volatile? || t.Restrict?
  }

  /** curtok_to_type_qualifier */
  function QualOf(t: Token): Quals {
    Quals(t.Const?, t.Volatile?, t.Restrict?)
  }

  /** A node of the type graph; `Qualified` is the source's type_cast. */
  datatype Type =
    | Base(id: nat)
    | Ptr(ref: Type)
    | Block(ref: Type)
    | Array(ref: Type, size: Option<nat>)
    | Func(ref: Type, params: Option<nat>)
    | Qualified(ref: Type, quals: Quals)

  /** type_skip_all */
  function Skip(t: Type): Type {
    if t.Qualified? then Skip(t.ref) else t
  }

  /** type_qual: the qualifiers above the first pointer or other concrete type. */
  function QualsOf(t: Type): Quals {
    if t.Qualified? then Or(t.quals, QualsOf(t.ref)) else NO_QUALS
  }

  predicate IsSuffixed(t: Type) {
    Skip(t).Array? || Skip(t).Func?
  }

  /** One step of a declarator: a type_parsed node of the parser. */
  datatype Layer =
    | Pointer(block: bool, quals: Quals)
    | Subscript(quals: Quals, size: Option<nat>)
    | Call(params: Option<nat>)

  /** type_qualify_transform_array(ty, q, 0) on a type that has no qualifiers of its own yet */
  function Qualify(t: Type, q: Quals): Type {
    if q == NO_QUALS then t else Qualified(t, q)
  }

  /** type_unqualify: keeps a qualifier node that holds `restrict` when no other one is below it. */
  function Unqualify(t: Type): Type
  {
    if !t.Qualified? then t
    else if t.quals.restr && !t.ref.Qualified? then t
    else Unqualify(t.ref)
  }

  /** The body of the loop of parse_type_declarator_to_type. */
  function Apply(layer: Layer, t: Type): Type {
    match layer
    case Pointer(block, q) => Qualify(if block then Block(t) else Ptr(t), q)
    case Subscript(q, n) => Qualify(Array(t, n), q)
    case Call(p) => Func(if QualsOf(t) != NO_QUALS then Unqualify(t) else t, p)
  }

  function Build(base: Type, layers: seq<Layer>): Type
    decreases |layers|
  {
    if layers == [] then base else Build(Apply(layers[0], base), layers[1..])
  }

  /** The types a declarator can denote over a base: every qualifier node sits on the pointer or array
      it qualifies (or belongs to the base), holds something, and is alone. */
  predicate Declared(t: Type)
  {
    match t
    case Base(_) => true
    case Ptr(r) => Declared(r)
    case Block(r) => Declared(r)
    case Array(r, _) => Declared(r)
    case Func(r, _) => Declared(r)
    case Qualified(r, q) => q != NO_QUALS && !r.Qualified? && !r.Func? && Declared(r)
  }

  /** The unqualified or qualified base at the bottom of the chain. */
  function BaseOf(t: Type): Type {
    if t.Base? || (t.Qualified? && t.ref.Base?) then t else BaseOf(t.ref)
  }

  /** The declarator layers above the base, innermost (nearest the base) first. */
  function LayersOf(t: Type): seq<Layer>
    requires Declared(t)
  {
    match t
    case Base(_) => []
    case Ptr(r) => LayersOf(r) + [Pointer(false, NO_QUALS)]
    case Block(r) => LayersOf(r) + [Pointer(true, NO_QUALS)]
    case Array(r, n) => LayersOf(r) + [Subscript(NO_QUALS, n)]
    case Func(r, p) => LayersOf(r) + [Call(p)]
    case Qualified(r, q) =>
      assert Declared(r);
      if r.Base? then []
      else LayersOf(r.ref) + [if r.Array? then Subscript(q, r.size) else Pointer(r.Block?, q)]
  }
}

/** Both directions as functions on token sequences. */
module DeclGrammar {
  import opened Common
  import opened DeclSyntax

  function QualToks(q: Quals): seq<Token> {
    (if q.cons then [Const] else []) + (if q.vol then [Volatile] else []) + (if q.restr then [Restrict] else [])
  }

  /** `[const 3]` and the like, followed by `rest`. */
  function SubscriptToks(q: Quals, n: Option<nat>, rest: seq<Token>): seq<Token> {
    [OpenSquare] + (QualToks(q) + ((if n.Some? then [Size(n.value)] else []) + ([CloseSquare] + rest)))
  }

  /** A parenthesised parameter list, followed by `rest`. */
  function CallToks(p: Option<nat>, rest: seq<Token>): seq<Token> {
    [OpenParen] + ((if p.Some? then [Params(p.value)] else []) + ([CloseParen] + rest))
  }

  /** The tokens of a declarator for `layers` around `name`, followed by `rest`; `suffixed` says that
      the layer printed before is an array or a function, which makes a pointer need parentheses. */
  function Emit(layers: seq<Layer>, name: Option<string>, suffixed: bool, rest: seq<Token>): seq<Token>
    decreases |layers|
  {
    if layers == [] then
      (if name.Some? then [Ident(name.value)] else []) + rest
    else
      match layers[0]
      case Pointer(block, q) =>
        var inner := Emit(layers[1..], name, false, if suffixed then [CloseParen] + rest else rest);
        (if suffixed then [OpenParen] else []) + ([if block then Caret else Star] + (QualToks(q) + inner))
      case Subscript(q, n) =>
        Emit(layers[1..], name, true, SubscriptToks(q, n, rest))
      case Call(p) =>
        Emit(layers[1..], name, true, CallToks(p, rest))
  }

  /** What the caller asks of a declarator: `named` is a non-null dfor, `need` the mode DECL_SPEL_NEED. */
  datatype Mode = Mode(named: bool, need: bool)

  datatype Outcome = Error | Parsed(layers: seq<Layer>, name: Option<string>, rest: seq<Token>)

  predicate At(toks: seq<Token>, t: Token) {
    toks != [] && toks[0] == t
  }

  function ReadQuals(q: Quals, toks: seq<Token>): (r: (Quals, seq<Token>))
    ensures |r.1| <= |toks|
    decreases |toks|
  {
    if toks != [] && IsQual(toks[0]) then ReadQuals(Or(q, QualOf(toks[0])), toks[1..]) else (q, toks)
  }

  /** parsed_type_ptr; the layers come innermost first, as the type-building loop applies them. */
  function ParseDecl(mode: Mode, toks: seq<Token>): (r: Outcome)
    ensures r.Parsed? ==> |r.rest| <= |toks|
    decreases |toks|, 2
  {
    if At(toks, Star) || At(toks, Caret) then
      var (q, t) := ReadQuals(NO_QUALS, toks[1..]);
      match ParseDecl(mode, t)
      case Error => Error
      case Parsed(sub, name, rest) => Parsed([Pointer(toks[0].Caret?, q)] + sub, name, rest)
    else ParseFuncOrArray(mode, toks)
  }

  /** parsed_type_func_or_array */
  function ParseFuncOrArray(mode: Mode, toks: seq<Token>): (r: Outcome)
    ensures r.Parsed? ==> |r.rest| <= |toks|
    decreases |toks|, 1
  {
    match ParseNest(mode, toks)
    case Error => Error
    case Parsed(layers, name, rest) => Suffixes(layers, name, rest)
  }

  /** parsed_type_nest */
  function ParseNest(mode: Mode, toks: seq<Token>): (r: Outcome)
    ensures r.Parsed? ==> |r.rest| <= |toks|
    decreases |toks|, 0
  {
    if At(toks, OpenParen) then
      if |toks| > 1 && (toks[1].Params? || toks[1].CloseParen?) then Parsed([], None, toks)
      else
        match ParseDecl(mode, toks[1..])
        case Error => Error
        case Parsed(layers, name, rest) =>
          if At(rest, CloseParen) then Parsed(layers, name, rest[1..]) else Error
    else if toks != [] && toks[0].Ident? then
      if mode.named then Parsed([], Some(toks[0].name), toks[1..]) else Error
    else if mode.need then Error
    else Parsed([], None, toks)
  }

  /** parsed_type_func and parsed_type_array: each suffix is put before the layers read so far. */
  function Suffixes(layers: seq<Layer>, name: Option<string>, toks: seq<Token>): (r: Outcome)
    ensures r.Parsed? ==> |r.rest| <= |toks|
    decreases |toks|
  {
    if At(toks, OpenParen) then
      var (p, t) := OptParams(toks[1..]);
      if At(t, CloseParen) then Suffixes([Call(p)] + layers, name, t[1..]) else Error
    else if At(toks, OpenSquare) then
      var (q, t) := ReadQuals(NO_QUALS, toks[1..]);
      var (n, u) := OptSize(t);
      if At(u, CloseSquare) then Suffixes([Subscript(q, n)] + layers, name, u[1..]) else Error
    else Parsed(layers, name, toks)
  }

  function OptParams(toks: seq<Token>): (r: (Option<nat>, seq<Token>))
    ensures |r.1| <= |toks|
  {
    if toks != [] && toks[0].Params? then (Some(toks[0].id), toks[1..]) else (None, toks)
  }

  function OptSize(toks: seq<Token>): (r: (Option<nat>, seq<Token>))
    ensures |r.1| <= |toks|
  {
    if toks != [] && toks[0].Size? then (Some(toks[0].n), toks[1..]) else (None, toks)
  }
}
