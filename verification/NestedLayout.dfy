/** Structures, unions and arrays without bit-fields, nested to any depth. */
module NestedLayout {
  import opened Arithmetic
  import opened Packing
  import opened StructLayout
  import opened LayoutSoundness

  /** Scalars have a size and an alignment of their own. */
  datatype Type = Scalar(size: nat, align: nat) | Array(elem: Type, count: nat)
      | Record(union: bool, members: seq<Type>)

  ghost predicate TypeOk(t: Type) {
    match t
    case Scalar(size, align) => PowerOfTwo(align) && align < TWO32 && size > 0 && size % align == 0
    case Array(elem, _) => TypeOk(elem)
    case Record(_, members) => forall i :: 0 <= i < |members| ==> TypeOk(members[i])
  }

  ghost predicate TypesOk(ts: seq<Type>) {
    forall i :: 0 <= i < |ts| ==> TypeOk(ts[i])
  }

  /** type_align */
  function AlignOf(t: Type): (a: nat)
    requires TypeOk(t)
    ensures PowerOfTwo(a) && a < TWO32
    decreases t, 0
  {
    match t
    case Scalar(_, align) => align
    case Array(elem, _) => AlignOf(elem)
    case Record(union, members) =>
      AlignsStay(Members(members), INIT, union);
      Final(Members(members), INIT, union).alignMax
  }

  /** The bytes of so many objects in a row. */
  function Span(count: nat, size: nat): nat {
    if count == 0 then 0 else Span(count - 1, size) + size
  }

  lemma {:induction false} SpanIsProduct(count: nat, size: nat, align: nat)
    requires align > 0 && size % align == 0
    ensures Span(count, size) == count * size && Span(count, size) % align == 0
  {
    if count > 0 {
      SpanIsProduct(count - 1, size, align);
      assert count * size == (count - 1) * size + size;
      AddMultiple(Span(count - 1, size), size, align);
    }
  }

  /** type_size */
  function SizeOf(t: Type): nat
    requires TypeOk(t)
    decreases t, 0
  {
    match t
    case Scalar(size, _) => size
    case Array(elem, count) => Span(count, SizeOf(elem))
    case Record(union, members) =>
      AlignsStay(Members(members), INIT, union);
      Size(Final(Members(members), INIT, union), union)
  }

  function AsMember(t: Type): (m: Member)
    requires TypeOk(t)
    ensures MemberOk(m)
    decreases t, 1
  {
    Normal(SizeOf(t), AlignOf(t))
  }

  function Members(ts: seq<Type>): (ms: seq<Member>)
    requires TypesOk(ts)
    ensures MembersOk(ms)
    decreases ts, 0
  {
    if ts == [] then [] else [AsMember(ts[0])] + Members(ts[1..])
  }

  /** A scalar inside a type, at its offset from the start of the whole object. */
  datatype Leaf = Leaf(off: nat, size: nat, align: nat)

  /** The scalars of an object of type `t` at `base`, in order. */
  function Leaves(t: Type, base: nat): seq<Leaf>
    requires TypeOk(t)
    decreases t, 2, 0
  {
    match t
    case Scalar(size, align) => [Leaf(base, size, align)]
    case Array(elem, count) => ElemLeaves(elem, count, base)
    case Record(union, members) => MemberLeaves(members, INIT, union, base)
  }

  function ElemLeaves(elem: Type, count: nat, base: nat): seq<Leaf>
    requires TypeOk(elem)
    decreases elem, 3, count
  {
    if count == 0 then [] else ElemLeaves(elem, count - 1, base) + Leaves(elem, base + Span(count - 1, SizeOf(elem)))
  }

  function MemberLeaves(ts: seq<Type>, st: State, union: bool, base: nat): seq<Leaf>
    requires TypesOk(ts)
    decreases ts, 2, 0
  {
    if ts == [] then []
    else
      var m := AsMember(ts[0]);
      Leaves(ts[0], base + At(st, m, union).byte) + MemberLeaves(ts[1..], Step(st, m, union), union, base)
  }

  ghost predicate UnionFree(t: Type) {
    match t
    case Scalar(_, _) => true
    case Array(elem, _) => UnionFree(elem)
    case Record(union, members) => !union && forall i :: 0 <= i < |members| ==> UnionFree(members[i])
  }

  ghost predicate AllUnionFree(ts: seq<Type>) {
    forall i :: 0 <= i < |ts| ==> UnionFree(ts[i])
  }

  /** Every leaf lies between `lo` and `hi` on a multiple of its alignment. */
  ghost predicate Placed(ls: seq<Leaf>, lo: nat, hi: nat) {
    forall i :: 0 <= i < |ls| ==>
      0 < ls[i].align && ls[i].off % ls[i].align == 0 && lo <= ls[i].off && ls[i].off + ls[i].size <= hi
  }

  ghost predicate InOrder(ls: seq<Leaf>) {
    forall i, j :: 0 <= i < j < |ls| ==> ls[i].off + ls[i].size <= ls[j].off
  }

  lemma PlacedJoin(a: seq<Leaf>, b: seq<Leaf>, lo: nat, mid1: nat, mid2: nat, hi: nat)
    requires Placed(a, lo, mid1) && Placed(b, mid2, hi) && lo <= mid2 && mid1 <= hi
    ensures Placed(a + b, lo, hi)
    ensures InOrder(a) && InOrder(b) && mid1 <= mid2 ==> InOrder(a + b)
  {}

  /** The size of a type is a multiple of its alignment. */
  lemma {:induction false} SizeIsAligned(t: Type)
    requires TypeOk(t)
    ensures SizeOf(t) % AlignOf(t) == 0
  {
    match t
    case Scalar(_, _) =>
    case Array(elem, count) =>
      SizeIsAligned(elem);
      SpanIsProduct(count, SizeOf(elem), AlignOf(elem));
    case Record(union, members) =>
      AlignsStay(Members(members), INIT, union);
      var st := Final(Members(members), INIT, union);
      RoundUpFacts(if union then st.sizeMax else st.offset, st.alignMax);
  }

  /** Wherever an object is put on a multiple of its alignment, each scalar in it lies on a multiple of its
      own and within the object, and without unions no two scalars overlap. */
  lemma {:induction false} LeavesAreAligned(t: Type, base: nat)
    requires TypeOk(t) && base % AlignOf(t) == 0
    ensures Placed(Leaves(t, base), base, base + SizeOf(t))
    ensures UnionFree(t) ==> InOrder(Leaves(t, base))
    decreases t, 2, 0
  {
    match t
    case Scalar(_, _) =>
    case Array(elem, count) => ElemsAreAligned(elem, count, base);
    case Record(union, members) =>
      AlignsStay(Members(members), INIT, union);
      var st := Final(Members(members), INIT, union);
      MembersAreAligned(members, INIT, union, base);
      RoundUpFacts(if union then st.sizeMax else st.offset, st.alignMax);
  }

  lemma {:induction false} ElemsAreAligned(elem: Type, count: nat, base: nat)
    requires TypeOk(elem) && base % AlignOf(elem) == 0
    ensures Placed(ElemLeaves(elem, count, base), base, base + Span(count, SizeOf(elem)))
    ensures UnionFree(elem) ==> InOrder(ElemLeaves(elem, count, base))
    decreases elem, 3, count
  {
    if count > 0 {
      var size := SizeOf(elem);
      ElemsAreAligned(elem, count - 1, base);
      SizeIsAligned(elem);
      var off := Span(count - 1, size);
      SpanIsProduct(count - 1, size, AlignOf(elem));
      AddMultiple(base, off, AlignOf(elem));
      LeavesAreAligned(elem, base + off);
      PlacedJoin(ElemLeaves(elem, count - 1, base), Leaves(elem, base + off), base, base + off, base + off,
          base + off + size);
    }
  }

  /** What is aligned for all members is aligned for the first. */
  lemma FirstDivides(ts: seq<Type>, st: State, union: bool, base: nat)
    requires ts != [] && TypesOk(ts) && PowerOfTwo(st.alignMax) && Final(Members(ts), st, union).alignMax > 0
    requires base % Final(Members(ts), st, union).alignMax == 0
    ensures Members(ts)[0] == AsMember(ts[0]) && Members(ts)[1..] == Members(ts[1..])
    ensures base % AsMember(ts[0]).align == 0
    ensures PowerOfTwo(Step(st, AsMember(ts[0]), union).alignMax)
  {
    var m, top := AsMember(ts[0]), Final(Members(ts), st, union).alignMax;
    AlignsStay(Members(ts), st, union);
    SmallerPowerDivides(m.align, top);
    MultipleOfMultiple(base, top, m.align);
  }

  /** Where a member goes, and how far that takes the offset and the largest size. */
  lemma MemberStep(st: State, m: Member, union: bool, base: nat, byte: nat, next: State)
    requires m.Normal? && m.align > 0 && base % m.align == 0
    requires byte == At(st, m, union).byte && next == Step(st, m, union)
    ensures (base + byte) % m.align == 0 && st.sizeMax <= next.sizeMax && m.size <= next.sizeMax
    ensures if union then byte == 0 && next.offset == st.offset
            else st.offset <= byte && next.offset == byte + m.size
  {
    RoundUpFacts(st.offset, m.align);
    if union { MultipleMod(0, m.align); }
    AddMultiple(base, byte, m.align);
  }

  lemma JoinLeaves(a: seq<Leaf>, b: seq<Leaf>, base: nat, byte: nat, size: nat, union: bool, lo: nat, mid: nat, hi: nat)
    requires Placed(a, base + byte, base + byte + size) && Placed(b, base + mid, base + hi)
    requires lo <= byte && byte + size <= hi && lo <= mid
    requires !union ==> byte + size == mid
    ensures Placed(a + b, base + lo, base + hi)
    ensures !union && InOrder(a) && InOrder(b) ==> InOrder(a + b)
  {
    assert Placed(a, base + lo, base + byte + size);
    PlacedJoin(a, b, base + lo, base + byte + size, base + mid, base + hi);
  }

  /** Where the members' scalars begin, and where they end. */
  function Bound(st: State, union: bool, end: bool): nat {
    if !union then st.offset else if end then st.sizeMax else 0
  }

  lemma {:induction false} MembersAreAligned(ts: seq<Type>, st: State, union: bool, base: nat)
    requires TypesOk(ts) && PowerOfTwo(st.alignMax) && Final(Members(ts), st, union).alignMax > 0
    requires base % Final(Members(ts), st, union).alignMax == 0
    ensures var end := Final(Members(ts), st, union);
            && st.offset <= end.offset && st.sizeMax <= end.sizeMax
            && Placed(MemberLeaves(ts, st, union, base), base + Bound(st, union, false), base + Bound(end, union, true))
    ensures !union && AllUnionFree(ts) ==> InOrder(MemberLeaves(ts, st, union, base))
    decreases ts, 2, 0
  {
    if ts != [] {
      var m := AsMember(ts[0]);
      var st', byte := Step(st, m, union), At(st, m, union).byte;
      FirstDivides(ts, st, union, base);
      MemberStep(st, m, union, base, byte, st');
      LeavesAreAligned(ts[0], base + byte);
      MembersAreAligned(ts[1..], st', union, base);
      FirstJoins(ts, st, union, base, m, st', byte, Final(Members(ts[1..]), st', union));
    }
  }

  lemma FirstJoins(ts: seq<Type>, st: State, union: bool, base: nat, m: Member, next: State, byte: nat, end: State)
    requires TypesOk(ts) && ts != [] && m == AsMember(ts[0]) && Members(ts)[1..] == Members(ts[1..])
    requires byte == At(st, m, union).byte && next == Step(st, m, union) && end == Final(Members(ts[1..]), next, union)
    requires m.size <= next.sizeMax <= end.sizeMax && next.offset <= end.offset
    requires if union then byte == 0 && next.offset == st.offset
             else st.offset <= byte && next.offset == byte + m.size
    requires Placed(Leaves(ts[0], base + byte), base + byte, base + byte + m.size)
    requires Placed(MemberLeaves(ts[1..], next, union, base), base + Bound(next, union, false),
                    base + Bound(end, union, true))
    ensures Final(Members(ts), st, union) == end
    ensures Placed(MemberLeaves(ts, st, union, base), base + Bound(st, union, false), base + Bound(end, union, true))
    ensures !union && InOrder(Leaves(ts[0], base + byte)) && InOrder(MemberLeaves(ts[1..], next, union, base)) ==>
              InOrder(MemberLeaves(ts, st, union, base))
  {
    JoinLeaves(Leaves(ts[0], base + byte), MemberLeaves(ts[1..], next, union, base), base, byte, m.size, union,
               Bound(st, union, false), Bound(next, union, false), Bound(end, union, true));
  }

  /** The members of a structure themselves: in order and disjoint, each on the lowest multiple of its
      alignment at or after the end of the one before; the size is the lowest multiple of the alignment at
      or after the end of the last, and the alignment is no more than some member needs. */
  lemma {:induction false} MembersAreLowest(ms: seq<Member>, st: State, i: nat)
    requires MembersOk(ms) && (forall k :: 0 <= k < |ms| ==> ms[k].Normal?) && i < |ms|
    ensures var ps := Places(ms, st, false);
            LeastMultiple(ps[i].byte, if i == 0 then st.offset else ps[i - 1].byte + ms[i - 1].size, ms[i].align)
    ensures i == |ms| - 1 ==> Final(ms, st, false).offset == Places(ms, st, false)[i].byte + ms[i].size
    decreases i
  {
    RoundUpIsLeast(st.offset, ms[0].align);
    var st' := Step(st, ms[0], false);
    if i > 0 {
      MembersAreLowest(ms[1..], st', i - 1);
      var ps := Places(ms, st, false);
      assert ps[i] == Places(ms[1..], st', false)[i - 1];
      if i > 1 { assert ps[i - 1] == Places(ms[1..], st', false)[i - 2]; }
    } else if |ms| == 1 {
      assert ms[1..] == [];
    }
  }

  /** Members without bit-fields end where the offset has come to. */
  lemma {:induction false} MembersAreCovered(ms: seq<Member>, st: State)
    requires MembersOk(ms) && (forall k :: 0 <= k < |ms| ==> ms[k].Normal?) && st.alignMax > 0
    ensures Covered(ms, st, 8 * st.offset)
  {
    if ms == [] {
      RoundUpFacts(st.offset, st.alignMax);
    } else {
      var st' := Step(st, ms[0], false);
      RoundUpFacts(st.offset, ms[0].align);
      MembersAreCovered(ms[1..], st');
      if ms[0].size == 0 { CoveredLower(ms[1..], st', 8 * st'.offset, 8 * st.offset); }
    }
  }

  /** Every structure without bit-fields is laid out soundly, and in order. */
  lemma WithoutBitFields(ms: seq<Member>)
    requires MembersOk(ms) && forall k :: 0 <= k < |ms| ==> ms[k].Normal?
    ensures SoundStruct(ms) && Final(ms, INIT, false).alignMax > 0
    ensures Ascending(Places(ms, INIT, false), 0, Size(Final(ms, INIT, false), false))
  {
    MembersAreCovered(ms, INIT);
    LayoutIsSound(ms);
  }

  lemma {:induction false} CoveredLower(ms: seq<Member>, st: State, top: nat, top': nat)
    requires MembersOk(ms) && st.alignMax > 0 && Covered(ms, st, top) && top' <= top
    ensures Covered(ms, st, top')
  {
    if ms != [] && At(st, ms[0], false).bits == 0 { CoveredLower(ms[1..], Step(st, ms[0], false), top, top'); }
  }

  lemma {:induction false} AlignIsNeeded(ms: seq<Member>, st: State)
    requires MembersOk(ms) && (forall k :: 0 <= k < |ms| ==> ms[k].Normal?)
    ensures var a := Final(ms, st, false).alignMax; a == st.alignMax || exists k :: 0 <= k < |ms| && ms[k].align == a
  {
    if ms != [] {
      AlignIsNeeded(ms[1..], Step(st, ms[0], false));
      var a := Final(ms, st, false).alignMax;
      if a != st.alignMax && a != ms[0].align {
        var k :| 0 <= k < |ms[1..]| && ms[1..][k].align == a;
        assert ms[k + 1].align == a;
      }
    }
  }

  /** The largest size among the members, and that none is aligned more strictly than the whole. */
  lemma {:induction false} LargestOf(ms: seq<Member>, st: State, union: bool) returns (size: nat)
    requires MembersOk(ms) && (forall k :: 0 <= k < |ms| ==> ms[k].Normal?)
    ensures var end := Final(ms, st, union);
            && end.sizeMax == size && size >= st.sizeMax && end.alignMax >= st.alignMax
            && (forall k :: 0 <= k < |ms| ==> ms[k].size <= size && ms[k].align <= end.alignMax)
            && (size == st.sizeMax || exists k :: 0 <= k < |ms| && ms[k].size == size)
  {
    size := st.sizeMax;
    if ms != [] {
      var next := Step(st, ms[0], union);
      size := LargestOf(ms[1..], next, union);
      assert forall k :: 1 <= k < |ms| ==> ms[k] == ms[1..][k - 1];
      if size != next.sizeMax {
        var k :| 0 <= k < |ms[1..]| && ms[1..][k].size == size;
        assert ms[k + 1].size == size;
      } else if size != st.sizeMax {
        assert ms[0].size == size;
      }
    }
  }

  /** A structure ends with its last member, and a union with its largest, but for the least padding that makes
      its size a multiple of its alignment. */
  lemma SizeIsLeast(ms: seq<Member>) returns (largest: nat)
    requires MembersOk(ms) && ms != [] && (forall k :: 0 <= k < |ms| ==> ms[k].Normal?)
    ensures largest < |ms| && forall k :: 0 <= k < |ms| ==> ms[k].size <= ms[largest].size
    ensures var (end, last) := (Final(ms, INIT, false), |ms| - 1);
            end.alignMax > 0
            && LeastMultiple(Size(end, false), Places(ms, INIT, false)[last].byte + ms[last].size, end.alignMax)
    ensures var end := Final(ms, INIT, true);
            end.alignMax > 0 && LeastMultiple(Size(end, true), ms[largest].size, end.alignMax)
  {
    var structure, union := Final(ms, INIT, false), Final(ms, INIT, true);
    var _ := LargestOf(ms, INIT, false);
    var size := LargestOf(ms, INIT, true);
    largest := 0;
    if size != 0 { largest :| 0 <= largest < |ms| && ms[largest].size == size; }
    MembersAreLowest(ms, INIT, |ms| - 1);
    RoundUpIsLeast(structure.offset, structure.alignMax);
    RoundUpIsLeast(union.sizeMax, union.alignMax);
  }
}
