/** What each answer of a comparison means (src/cc1/btype.h, src/cc1/fold.c). */
module TypeAnswers {
  import opened TypeCompare

  // ---- Qualifiers ------------------------------------------------------------------------------------------

  /** `a` is more qualified: `const` decides, then `volatile`, and `restrict` only against no qualifier at all. */
  predicate More(a: Quals, b: Quals) {
    || (a.isConst && !b.isConst)
    || (a.isConst == b.isConst && a.isVolatile && !b.isVolatile)
    || (a == Quals(false, false, true) && b == Quals(false, false, false))
  }

  /** The same type but for the qualifiers of the outermost level. */
  predicate SameInside(a: Type, b: Type) {
    match a
    case Base(prim, tag, _) => b.Base? && prim == b.prim && tag == b.tag
    case Ptr(to, _) => b.Ptr? && Same(to, b.to)
    case Array(of, size, _) => b.Array? && size == b.size && Same(of, b.of)
  }

  /** Below `depth` pointers, and arrays of equal sizes, there is a level where `a` is more qualified, or `b` unless
      `adds`, and below which the types are the same. */
  predicate DiffersAt(a: Type, b: Type, depth: nat, adds: bool) {
    || (depth == 0 && SameInside(a, b) && if adds then More(a.quals, b.quals) else More(b.quals, a.quals))
    || (a.Ptr? && b.Ptr? && depth > 0 && DiffersAt(a.to, b.to, depth - 1, adds))
    || (a.Array? && b.Array? && a.size == b.size && DiffersAt(a.of, b.of, depth, adds))
  }

  ghost predicate DiffersDeep(a: Type, b: Type) {
    exists depth: nat, adds: bool :: depth >= 2 && DiffersAt(a, b, depth, adds)
  }

  lemma QualifiedMeans(a: Quals, b: Quals)
    ensures Qualified(Equal, a, b) == QualAdd <==> More(a, b)
    ensures Qualified(Equal, a, b) == QualSub <==> More(b, a)
    ensures Qualified(Equal, a, b) in {Equal, QualAdd, QualSub}
  {}

  /** The answers about qualifiers, by how many pointers stand above the level that decides. */
  ghost predicate QualifierAnswers(a: Type, b: Type, r: Answer) {
    && (r == QualAdd <==> DiffersAt(a, b, 0, true))
    && (r == QualSub <==> DiffersAt(a, b, 0, false))
    && (r == PointedAdd <==> DiffersAt(a, b, 1, true))
    && (r == PointedSub <==> DiffersAt(a, b, 1, false))
    && (r == NestedChange <==> DiffersDeep(a, b))
  }

  lemma {:induction false} QualifiersDecide(a: Type, b: Type)
    requires TagsOk(a) && TagsOk(b) && TagsApart(a, b)
    ensures QualifierAnswers(a, b, CmpR(a, b))
  {
    EqualIsSameR(a, b);
    QualifiedMeans(a.quals, b.quals);
    match a
    case Base(_, _, _) => NoneDeep(a, b);
    case Ptr(to, _) =>
      if b.Ptr? {
        EqualIsSameR(to, b.to);
        QualifiersDecide(to, b.to);
        PointedDecides(a, b);
      } else {
        NoneDeep(a, b);
      }
    case Array(of, _, _) =>
      if b.Array? && a.size == b.size {
        EqualIsSameR(of, b.of);
        QualifiersDecide(of, b.of);
        DeepInArray(a, b);
      } else {
        NoneDeep(a, b);
      }
  }

  lemma NoneDeep(a: Type, b: Type)
    requires !(a.Ptr? && b.Ptr?) && !(a.Array? && b.Array? && a.size == b.size)
    ensures forall depth: nat, adds: bool :: depth > 0 ==> !DiffersAt(a, b, depth, adds)
  {}

  lemma DeepInArray(a: Type, b: Type)
    requires a.Array? && b.Array? && a.size == b.size
    ensures DiffersDeep(a, b) <==> DiffersDeep(a.of, b.of)
  {
    forall depth: nat, adds: bool | depth >= 2
      ensures DiffersAt(a, b, depth, adds) <==> DiffersAt(a.of, b.of, depth, adds)
    {}
  }

  lemma PointedDecides(a: Type, b: Type)
    requires a.Ptr? && b.Ptr? && QualifierAnswers(a.to, b.to, CmpR(a.to, b.to))
    requires CmpR(a.to, b.to) == Equal <==> Same(a.to, b.to)
    ensures QualifierAnswers(a, b, CmpR(a, b))
  {
    QualifiedMeans(a.quals, b.quals);
    DeepBelowPointer(a, b);
  }

  lemma DeepBelowPointer(a: Type, b: Type)
    requires a.Ptr? && b.Ptr?
    ensures DiffersDeep(a, b) <==>
            DiffersAt(a.to, b.to, 1, true) || DiffersAt(a.to, b.to, 1, false) || DiffersDeep(a.to, b.to)
  {
    if DiffersDeep(a, b) {
      var depth: nat, adds :| depth >= 2 && DiffersAt(a, b, depth, adds);
      assert DiffersAt(a.to, b.to, depth - 1, adds);
    }
    if DiffersAt(a.to, b.to, 1, true) { assert DiffersAt(a, b, 2, true); }
    if DiffersAt(a.to, b.to, 1, false) { assert DiffersAt(a, b, 2, false); }
    if DiffersDeep(a.to, b.to) {
      var depth: nat, adds :| depth >= 2 && DiffersAt(a.to, b.to, depth, adds);
      assert DiffersAt(a, b, depth + 1, adds);
    }
  }

  // ---- Different types -------------------------------------------------------------------------------------

  /** The same type but for qualifiers. */
  predicate SameShape(a: Type, b: Type) {
    match a
    case Base(prim, tag, _) => b.Base? && prim == b.prim && tag == b.tag
    case Ptr(to, _) => b.Ptr? && SameShape(to, b.to)
    case Array(of, size, _) => b.Array? && size == b.size && SameShape(of, b.of)
  }

  const INTEGERS: set<Prim> :=
    {Bool, NChar, SChar, UChar, Int, UInt, Short, UShort, Long, ULong, LLong, ULLong, Prim.Enum}

  const FLOATS: set<Prim> := {Float, Double, LDouble}

  predicate IsInteger(t: Type) { t.Base? && t.prim in INTEGERS }

  predicate IsNumber(t: Type) { t.Base? && t.prim in INTEGERS + FLOATS }

  /** What arrays of equal sizes are arrays of, on both sides. */
  function Elements(a: Type, b: Type): (Type, Type) {
    if a.Array? && b.Array? && a.size == b.size then Elements(a.of, b.of) else (a, b)
  }

  /** A value of another type is accepted: any for `void`, a pointer for `_Bool`, a number for a number. */
  predicate Accepts(a: Type, b: Type) {
    || (a.Base? && a.prim == Void && !(b.Base? && b.prim == Void))
    || (a.Base? && a.prim == Bool && b.Ptr?)
    || (IsNumber(a) && IsNumber(b))
  }

  /** It takes a cast: between pointers, and between a pointer and an integer. */
  predicate Casts(a: Type, b: Type) {
    (a.Ptr? && b.Ptr?) || (a.Ptr? && IsInteger(b)) || (IsInteger(a) && b.Ptr?)
  }

  ghost predicate ShapeAnswers(a: Type, b: Type, r: Answer) {
    var (x, y) := Elements(a, b);
    if SameShape(a, b) then r !in {Implicit, Explicit, NotEqual}
    else r == if Accepts(x, y) then Implicit else if Casts(x, y) then Explicit else NotEqual
  }

  lemma {:induction false} ShapesDecide(a: Type, b: Type)
    requires TagsOk(a) && TagsOk(b) && TagsApart(a, b)
    ensures ShapeAnswers(a, b, CmpR(a, b))
  {
    match a
    case Base(_, _, _) =>
    case Ptr(to, _) => if b.Ptr? { ShapesDecide(to, b.to); }
    case Array(of, _, _) => if b.Array? { ShapesDecide(of, b.of); }
  }

  predicate VoidPointer(t: Type) { t.Ptr? && t.to.Base? && t.to.prim == Void }

  /** Every answer but that of equality, told from the types alone. Qualifiers decide where the types are otherwise the
      same: the innermost level at which they differ, by how many pointers stand above it. Else the types decide,
      and a pointer to `void` needs no cast from or to another pointer. */
  lemma AnswersMean(a: Type, b: Type)
    requires TagsOk(a) && TagsOk(b) && TagsApart(a, b)
    ensures QualifierAnswers(a, b, Cmp(a, b))
    ensures SameShape(a, b) <==> Cmp(a, b) !in {Implicit, Explicit, NotEqual}
    ensures !SameShape(a, b) ==>
              var (x, y) := Elements(a, b);
              Cmp(a, b) ==
              if Accepts(x, y) || (a.Ptr? && b.Ptr? && (VoidPointer(a) || VoidPointer(b))) then Implicit
              else if Casts(x, y) then Explicit else NotEqual
  {
    QualifiersDecide(a, b);
    ShapesDecide(a, b);
  }

  /** The examples that the answers are named after. */
  lemma NamedAfter()
    ensures var none := Quals(false, false, false);
            var plain, konst := Base(NChar, 0, none), Base(NChar, 0, Quals(true, false, false));
            && Cmp(konst, plain) == QualAdd && Cmp(plain, konst) == QualSub
            && Cmp(Ptr(konst, none), Ptr(plain, none)) == PointedAdd
            && Cmp(Ptr(plain, none), Ptr(konst, none)) == PointedSub
            && Cmp(Ptr(Ptr(plain, none), none), Ptr(Ptr(konst, none), none)) == NestedChange
  {}

  /** A `char` and a `long`, a pointer and an `int`, pointers to different types and to `void`, and a structure. */
  lemma NamedConversions()
    ensures var none := Quals(false, false, false);
            var plain := Base(NChar, 0, none);
            && Cmp(plain, Base(Long, 0, none)) == Implicit
            && Cmp(Ptr(plain, none), Base(Int, 0, none)) == Explicit
            && Cmp(Ptr(plain, none), Ptr(Base(Int, 0, none), none)) == Explicit
            && Cmp(Ptr(plain, none), Ptr(Base(Void, 0, none), none)) == Implicit
            && Cmp(Base(Prim.Struct, 1, none), plain) == NotEqual
  {}
}
