/** Comparison of types (src/cc1/type.c, src/cc1/btype.c). */
module TypeCompare {
  datatype Prim = Void | Bool | NChar | SChar | UChar | Int | UInt | Short | UShort | Long | ULong | LLong | ULLong
                | Float | Double | LDouble | Enum | Struct | Union

  datatype Quals = Quals(isConst: bool, isVolatile: bool, isRestrict: bool)

  /** `tag` tells enumerations, structures and unions apart; it is zero for other types. */
  datatype Type =
    | Base(prim: Prim, tag: nat, quals: Quals)
    | Ptr(to: Type, quals: Quals)
    | Array(of: Type, size: nat, quals: Quals)

  datatype Answer = Equal | QualAdd | QualSub | PointedAdd | PointedSub | NestedChange | Implicit | Explicit | NotEqual

  predicate Any(q: Quals) {
    q.isConst || q.isVolatile || q.isRestrict
  }

  /** type_qual_cmp: -1 where `a` has more, 1 where `b` has. */
  function QualCmp(a: Quals, b: Quals): int {
    if a.isConst != b.isConst then (if a.isConst then -1 else 1)
    else if a.isVolatile != b.isVolatile then (if a.isVolatile then -1 else 1)
    else 0
  }

  predicate Convertible(p: Prim) {
    !(p.Void? || p.Struct? || p.Union?)
  }

  predicate Integral(p: Prim) {
    Convertible(p) && !(p.Float? || p.Double? || p.LDouble?)
  }

  /** btype_cmp */
  function BaseCmp(a: Type, b: Type): Answer
    requires a.Base? && b.Base?
  {
    if a.prim.Void? then (if b.prim.Void? then Equal else Implicit)
    else if a.prim.Struct? || a.prim.Union? then (if a.tag == b.tag then Equal else NotEqual)
    else if a.prim.Enum? && b.prim.Enum? && a.tag == b.tag then Equal
    else if !a.prim.Enum? && a.prim == b.prim then Equal
    else if Convertible(a.prim) && Convertible(b.prim) then Implicit
    else NotEqual
  }

  predicate IsVoid(t: Type) { t.Base? && t.prim.Void? }
  predicate IsIntegral(t: Type) { t.Base? && Integral(t.prim) }

  predicate SameKind(a: Type, b: Type) {
    (a.Base? && b.Base?) || (a.Ptr? && b.Ptr?) || (a.Array? && b.Array?)
  }

  /** The first branch of type_cmp_r, for types of different kinds. */
  function KindCmp(a: Type, b: Type): Answer {
    if a.Base? && a.prim.Bool? && b.Ptr? then Implicit
    else if (a.Ptr? && IsIntegral(b)) || (b.Ptr? && IsIntegral(a)) then Explicit
    else if IsVoid(a) then Implicit
    else NotEqual
  }

  /** What a comparison of what pointers point to means for the pointers. */
  function Pointed(r: Answer): Answer {
    match r
    case NotEqual => Explicit
    case Implicit => Explicit
    case QualAdd => PointedAdd
    case QualSub => PointedSub
    case PointedAdd => NestedChange
    case PointedSub => NestedChange
    case _ => r
  }

  function Qualified(r: Answer, a: Quals, b: Quals): Answer {
    if r != Equal then r
    else if Any(a) && Any(b) then
      (if QualCmp(a, b) == -1 then QualAdd else if QualCmp(a, b) == 1 then QualSub else r)
    else if Any(a) then QualAdd
    else if Any(b) then QualSub
    else r
  }

  /** type_cmp_r */
  function CmpR(a: Type, b: Type): Answer {
    if !SameKind(a, b) then KindCmp(a, b)
    else
      match a
      case Base(_, _, _) => Qualified(BaseCmp(a, b), a.quals, b.quals)
      case Ptr(to, _) => Qualified(Pointed(CmpR(to, b.to)), a.quals, b.quals)
      case Array(of, size, _) => if size != b.size then NotEqual else Qualified(CmpR(of, b.of), a.quals, b.quals)
  }

  predicate IsVoidPtr(t: Type) { t.Ptr? && IsVoid(t.to) }

  /** type_cmp */
  function Cmp(a: Type, b: Type): Answer {
    var r := CmpR(a, b);
    if r.Explicit? && ((IsVoidPtr(a) && b.Ptr?) || (IsVoidPtr(b) && a.Ptr?)) then Implicit else r
  }

  /** Tags belong to enumerations, structures and unions, which have distinct ones. */
  predicate TagsOk(t: Type) {
    match t
    case Base(prim, tag, _) => (prim.Struct? || prim.Union? || prim.Enum?) == (tag > 0)
    case Ptr(to, _) => TagsOk(to)
    case Array(of, _, _) => TagsOk(of)
  }

  /** One tag is not that of a structure and of a union, or an enumeration, at once. */
  predicate TagsApart(a: Type, b: Type) {
    match a
    case Base(prim, tag, _) => b.Base? && tag > 0 && tag == b.tag ==> prim == b.prim
    case Ptr(to, _) => b.Ptr? ==> TagsApart(to, b.to)
    case Array(of, _, _) => b.Array? ==> TagsApart(of, b.of)
  }

  // ---- What the answers mean -----------------------------------------------------------------------

  /** `restrict` counts only where it is the only qualifier of one of the two. */
  predicate SameQuals(a: Quals, b: Quals) {
    a.isConst == b.isConst && a.isVolatile == b.isVolatile && Any(a) == Any(b)
  }

  /** The same type throughout. */
  predicate Same(a: Type, b: Type) {
    && SameKind(a, b) && SameQuals(a.quals, b.quals)
    && match a
       case Base(prim, tag, _) => prim == b.prim && tag == b.tag
       case Ptr(to, _) => Same(to, b.to)
       case Array(of, size, _) => size == b.size && Same(of, b.of)
  }

  lemma {:induction false} EqualIsSameR(a: Type, b: Type)
    requires TagsOk(a) && TagsOk(b) && TagsApart(a, b)
    ensures CmpR(a, b) == Equal <==> Same(a, b)
  {
    match a
    case Base(_, _, _) =>
    case Ptr(to, _) => if b.Ptr? { EqualIsSameR(to, b.to); }
    case Array(of, _, _) => if b.Array? { EqualIsSameR(of, b.of); }
  }

  /** Types compare as equal exactly when they are the same at every level; in particular every type equals
      itself. */
  lemma EqualIsSame(a: Type, b: Type)
    requires TagsOk(a) && TagsOk(b) && TagsApart(a, b)
    ensures Cmp(a, b) == Equal <==> Same(a, b)
  {
    EqualIsSameR(a, b);
  }

  lemma {:induction false} SameAsItself(t: Type)
    ensures Same(t, t)
  {
    match t
    case Base(_, _, _) =>
    case Ptr(to, _) => SameAsItself(to);
    case Array(of, _, _) => SameAsItself(of);
  }

  lemma {:induction false} ApartFromItself(t: Type)
    ensures TagsApart(t, t)
  {
    match t
    case Base(_, _, _) =>
    case Ptr(to, _) => ApartFromItself(to);
    case Array(of, _, _) => ApartFromItself(of);
  }

  lemma EqualToItself(t: Type)
    requires TagsOk(t)
    ensures Cmp(t, t) == Equal
  {
    SameAsItself(t);
    ApartFromItself(t);
    EqualIsSame(t, t);
  }

  /** The answer for the operands the other way round. */
  function Swapped(r: Answer): Answer {
    match r
    case QualAdd => QualSub
    case QualSub => QualAdd
    case PointedAdd => PointedSub
    case PointedSub => PointedAdd
    case _ => r
  }

  /** `void` accepts every other type but not the other way round, and `_Bool` a pointer more readily than a
      pointer a `_Bool`: below arrays this shows, below pointers it does not. */
  predicate Lopsided(a: Type, b: Type) {
    if a.Array? && b.Array? then a.size == b.size && Lopsided(a.of, b.of)
    else
      || IsVoid(a) != IsVoid(b)
      || (a.Base? && a.prim.Bool? && b.Ptr?) || (b.Base? && b.prim.Bool? && a.Ptr?)
  }

  predicate OneWay(r: Answer, s: Answer) {
    r.Implicit? && (s.NotEqual? || s.Explicit?)
  }

  lemma {:induction false} SwapR(a: Type, b: Type)
    requires TagsOk(a) && TagsOk(b) && TagsApart(a, b) && TagsApart(b, a)
    ensures CmpR(b, a) == Swapped(CmpR(a, b)) <==> !Lopsided(a, b)
    ensures Lopsided(a, b) ==> OneWay(CmpR(a, b), CmpR(b, a)) || OneWay(CmpR(b, a), CmpR(a, b))
  {
    match a
    case Base(_, _, _) =>
    case Ptr(to, _) => if b.Ptr? { SwapR(to, b.to); }
    case Array(of, _, _) => if b.Array? { SwapR(of, b.of); }
  }

  /** Swapping the operands exchanges added and removed qualifiers, at the top and pointed to, and changes no
      other answer, exactly when they are not lopsided. */
  lemma SwapExchanges(a: Type, b: Type)
    requires TagsOk(a) && TagsOk(b) && TagsApart(a, b) && TagsApart(b, a)
    ensures Cmp(b, a) == Swapped(Cmp(a, b)) <==> !Lopsided(a, b)
  {
    SwapR(a, b);
  }
}
