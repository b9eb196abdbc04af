/**
  Layout of structures (src/cc1/fold_sue.c): offsets of members and bit-fields, size and alignment.
*/
module StructLayout {
  import opened Arithmetic
  import opened Packing

  /** A member has a size and an alignment; a bit-field has a width and the size of its declared type, an
      integer, which is also that type's alignment. */
  datatype Member = Normal(size: nat, align: nat) | Bits(width: nat, unit: nat)

  ghost predicate MemberOk(m: Member) {
    match m
    case Normal(_, align) => PowerOfTwo(align) && align < TWO32
    case Bits(width, unit) => unit in {1, 2, 4, 8} && width <= 8 * unit
  }

  ghost predicate MembersOk(ms: seq<Member>) {
    forall i :: 0 <= i < |ms| ==> MemberOk(ms[i])
  }

  /** struct_offset, struct_offset_bitfield and the extent in bits */
  datatype Place = Place(byte: nat, bit: nat, bits: nat) {
    function Start(): nat { 8 * byte + bit }
    function End(): nat { Start() + bits }
  }

  /** The variables of fold_sue: `master` is the size of the type of the group's first bit-field, zero
      before there is any, and `cur` the bits that the open group holds, zero if none is open. */
  datatype State = State(offset: nat, cur: nat, first: nat, limit: nat, master: nat, realign: bool, alignMax: nat,
      sizeMax: nat)

  const INIT := State(0, 0, 0, 0, 0, false, 1, 0)

  function Max(a: nat, b: nat): nat { if a > b then a else b }

  /** The size, and alignment, of the type chosen for a bit-field of some width: the widest that is not
      wider than its bytes. */
  function Storage(width: nat): nat {
    var bytes := (width + 7) / 8;
    if bytes >= 8 then 8 else if bytes >= 4 then 4 else if bytes >= 2 then 2 else 1
  }

  /** struct_pack_finish_bitfield */
  function FinishGroup(offset: nat, master: nat): nat {
    if master > 0 then RoundUp(offset, master) else offset
  }

  predicate Continues(st: State, m: Member) {
    m.Bits? && m.width > 0 && !st.realign && st.cur > 0 && st.cur + m.width <= st.limit
  }

  function OpenOffset(st: State): nat {
    if st.realign || st.cur > 0 then FinishGroup(st.offset, st.master) else st.offset
  }

  /** Where a member goes. */
  function At(st: State, m: Member, union: bool): Place
    requires m.Normal? ==> m.align > 0
  {
    if m.Normal? then Place(if union then 0 else RoundUp(st.offset, m.align), 0, 8 * m.size)
    else if m.width == 0 then Place(st.offset, st.cur, 0)
    else if Continues(st, m) then Place(st.first, st.cur, m.width)
    else Place(RoundUp(OpenOffset(st), Storage(m.width)), 0, m.width)
  }

  /** One turn of the loop over the members. */
  function Step(st: State, m: Member, union: bool): State
    requires m.Normal? ==> m.align > 0
  {
    var byte := At(st, m, union).byte;
    if m.Normal? then
      (if union then st else st.(offset := byte + m.size, cur := 0))
      .(alignMax := Max(st.alignMax, m.align), sizeMax := Max(st.sizeMax, m.size))
    else if m.width == 0 then Filled(st.(realign := true))
    else if Continues(st, m) then Filled(st.(cur := st.cur + m.width))
    else
      Filled(State(byte + Storage(m.width), m.width, byte, 8 * m.unit, m.unit, false,
                   Max(st.alignMax, m.unit), Max(st.sizeMax, Storage(m.width))))
  }

  /** A group that is exactly full is closed at once. */
  function Filled(st: State): State {
    if st.cur == st.limit then st.(cur := 0, offset := FinishGroup(st.offset, st.master)) else st
  }

  function Places(ms: seq<Member>, st: State, union: bool): (ps: seq<Place>)
    requires MembersOk(ms)
    ensures |ps| == |ms|
  {
    if ms == [] then [] else [At(st, ms[0], union)] + Places(ms[1..], Step(st, ms[0], union), union)
  }

  function Final(ms: seq<Member>, st: State, union: bool): State
    requires MembersOk(ms)
  {
    if ms == [] then st else Final(ms[1..], Step(st, ms[0], union), union)
  }

  function Size(st: State, union: bool): nat
    requires st.alignMax > 0
  {
    RoundUp(if union then st.sizeMax else st.offset, st.alignMax)
  }

  lemma {:induction false} AlignsStay(ms: seq<Member>, st: State, union: bool)
    requires MembersOk(ms) && PowerOfTwo(st.alignMax)
    ensures PowerOfTwo(Final(ms, st, union).alignMax)
    ensures Final(ms, st, union).alignMax >= st.alignMax
    ensures st.alignMax < TWO32 ==> Final(ms, st, union).alignMax < TWO32
    ensures forall i :: 0 <= i < |ms| && ms[i].Normal? ==> Final(ms, st, union).alignMax >= ms[i].align
    ensures forall i :: 0 <= i < |ms| && ms[i].Bits? && ms[i].width > 0 ==> Final(ms, st, union).alignMax >= 1
  {
    if ms != [] {
      assert PowerOfTwo(1) && PowerOfTwo(2) && PowerOfTwo(4) && PowerOfTwo(8);
      AlignsStay(ms[1..], Step(st, ms[0], union), union);
      forall i | 0 <= i < |ms| && ms[i].Normal? ensures Final(ms, st, union).alignMax >= ms[i].align {
        if i > 0 { assert ms[i] == ms[1..][i - 1]; }
      }
    }
  }
}

/** When members overlap, and when they do not. */
module LayoutSoundness {
  import opened Arithmetic
  import opened Packing
  import opened StructLayout

  predicate Overlap(p: Place, q: Place) {
    p.bits > 0 && q.bits > 0 && p.Start() < q.End() && q.Start() < p.End()
  }

  /** No two members share a bit, and all lie within the size. */
  ghost predicate Sound(ps: seq<Place>, size: nat) {
    && (forall i, j :: 0 <= i < j < |ps| ==> !Overlap(ps[i], ps[j]))
    && (forall i :: 0 <= i < |ps| && ps[i].bits > 0 ==> ps[i].End() <= 8 * size)
  }

  /** A structure of these members is laid out soundly. */
  ghost predicate SoundStruct(ms: seq<Member>)
    requires MembersOk(ms)
  {
    AlignsStayPositive(ms, INIT);
    Sound(Places(ms, INIT, false), Size(Final(ms, INIT, false), false))
  }

  /** The end of what has been laid out, given where it ended before. */
  function Top(p: Place, top: nat): nat {
    if p.bits == 0 then top else p.End()
  }

  /** Every member that does not continue a group of bit-fields starts where the bits before it have ended,
      that is, the bytes reserved for the first bit-field of each group, with the padding that follows
      them, are enough for the whole group. */
  ghost predicate Covered(ms: seq<Member>, st: State, top: nat)
    requires MembersOk(ms) && st.alignMax > 0
  {
    if ms == [] then top <= 8 * Size(st, false)
    else
      var p := At(st, ms[0], false);
      && (p.bits == 0 || Continues(st, ms[0]) || top <= p.Start())
      && Covered(ms[1..], Step(st, ms[0], false), Top(p, top))
  }

  /** What holds between a state and the places given so far: the bits from `lo` to `top` are all taken,
      nothing will start below `lo`, and an open group reaches from `lo` to `top`. */
  ghost predicate Inv(st: State, prev: seq<Place>, lo: nat, top: nat) {
    && lo <= top
    && (top > 0 ==> lo < top)
    && lo <= 8 * st.offset
    && (st.cur > 0 ==> lo == 8 * st.first && top == 8 * st.first + st.cur)
    && (forall x :: lo <= x < top ==> Taken(prev, x))
  }

  ghost predicate Taken(prev: seq<Place>, x: nat) {
    exists i :: 0 <= i < |prev| && prev[i].Start() <= x < prev[i].End()
  }

  function Lo(st: State, m: Member, lo: nat): nat
    requires m.Normal? ==> m.align > 0
  {
    var p := At(st, m, false);
    if p.bits == 0 || Continues(st, m) then lo else p.Start()
  }

  lemma OffsetGrows(st: State, m: Member)
    requires MemberOk(m)
    ensures Step(st, m, false).offset >= st.offset
    ensures At(st, m, false).bits > 0 && !Continues(st, m) ==> At(st, m, false).byte >= st.offset
    ensures At(st, m, false).bits > 0 && !Continues(st, m) ==>
              Step(st, m, false).offset >= At(st, m, false).byte + (if m.Normal? then m.size else Storage(m.width))
  {
    if m.Normal? {
      RoundUpFacts(st.offset, m.align);
    } else if m.width > 0 {
      if st.master > 0 { RoundUpFacts(st.offset, st.master); }
      RoundUpFacts(OpenOffset(st), Storage(m.width));
      RoundUpFacts(At(st, m, false).byte + Storage(m.width), m.unit);
    }
  }

  lemma InvKept(st: State, m: Member, prev: seq<Place>, lo: nat, top: nat)
    requires MemberOk(m) && Inv(st, prev, lo, top)
    requires var p := At(st, m, false); p.bits == 0 || Continues(st, m) || top <= p.Start()
    ensures var p := At(st, m, false);
            Inv(Step(st, m, false), prev + [p], Lo(st, m, lo), Top(p, top))
  {
    var p := At(st, m, false);
    OffsetGrows(st, m);
    var lo', top' := Lo(st, m, lo), Top(p, top);
    forall x | lo' <= x < top' ensures Taken(prev + [p], x) {
      if p.Start() <= x < p.End() {
        assert (prev + [p])[|prev|] == p;
      } else {
        assert Taken(prev, x);
        var i :| 0 <= i < |prev| && prev[i].Start() <= x < prev[i].End();
        assert (prev + [p])[i] == prev[i];
      }
    }
  }

  ghost predicate Ascending(ps: seq<Place>, from: nat, size: nat) {
    && (forall i :: 0 <= i < |ps| && ps[i].bits > 0 ==> from <= ps[i].Start() && ps[i].End() <= 8 * size)
    && (forall i, j :: 0 <= i < j < |ps| && ps[i].bits > 0 && ps[j].bits > 0 ==> ps[i].End() <= ps[j].Start())
  }

  lemma {:induction false} CoveredAscends(ms: seq<Member>, st: State, prev: seq<Place>, lo: nat, top: nat)
    requires MembersOk(ms) && st.alignMax > 0 && Inv(st, prev, lo, top) && Covered(ms, st, top)
    ensures Final(ms, st, false).alignMax > 0
    ensures top <= 8 * Size(Final(ms, st, false), false)
    ensures Ascending(Places(ms, st, false), top, Size(Final(ms, st, false), false))
  {
    if ms != [] {
      var p, st' := At(st, ms[0], false), Step(st, ms[0], false);
      InvKept(st, ms[0], prev, lo, top);
      CoveredAscends(ms[1..], st', prev + [p], Lo(st, ms[0], lo), Top(p, top));
      AscendingStep(p, Places(ms[1..], st', false), top, Size(Final(ms, st, false), false));
    }
  }

  lemma AscendingStep(p: Place, rest: seq<Place>, top: nat, size: nat)
    requires Ascending(rest, Top(p, top), size) && Top(p, top) <= 8 * size && (p.bits > 0 ==> top <= p.Start())
    ensures Ascending([p] + rest, top, size)
  {
    var ps := [p] + rest;
    assert forall i :: 0 < i < |ps| ==> ps[i] == rest[i - 1];
  }

  lemma {:induction false} UncoveredClashes(ms: seq<Member>, st: State, prev: seq<Place>, lo: nat, top: nat)
    requires MembersOk(ms) && st.alignMax > 0 && Inv(st, prev, lo, top) && !Covered(ms, st, top)
    ensures Final(ms, st, false).alignMax > 0
    ensures !Sound(prev + Places(ms, st, false), Size(Final(ms, st, false), false))
    decreases |ms|
  {
    var all := prev + Places(ms, st, false);
    AlignsStayPositive(ms, st);
    if ms == [] {
      assert Taken(prev, top - 1);
      var i :| 0 <= i < |prev| && prev[i].Start() <= top - 1 < prev[i].End();
      assert all[i] == prev[i];
    } else {
      var p, st' := At(st, ms[0], false), Step(st, ms[0], false);
      if p.bits == 0 || Continues(st, ms[0]) || top <= p.Start() {
        InvKept(st, ms[0], prev, lo, top);
        UncoveredClashes(ms[1..], st', prev + [p], Lo(st, ms[0], lo), Top(p, top));
        assert all == (prev + [p]) + Places(ms[1..], st', false);
      } else {
        OffsetGrows(st, ms[0]);
        assert Taken(prev, p.Start());
        var i :| 0 <= i < |prev| && prev[i].Start() <= p.Start() < prev[i].End();
        assert all[i] == prev[i] && all[|prev|] == p;
        assert Overlap(all[i], all[|prev|]);
      }
    }
  }

  lemma {:induction false} AlignsStayPositive(ms: seq<Member>, st: State)
    requires MembersOk(ms) && st.alignMax > 0
    ensures Final(ms, st, false).alignMax > 0
  {
    if ms != [] { AlignsStayPositive(ms[1..], Step(st, ms[0], false)); }
  }

  lemma AscendingIsSound(ps: seq<Place>, size: nat)
    requires Ascending(ps, 0, size)
    ensures Sound(ps, size)
  {
    forall i, j | 0 <= i < j < |ps| ensures !Overlap(ps[i], ps[j]) {
      if ps[i].bits > 0 && ps[j].bits > 0 { assert ps[i].End() <= ps[j].Start(); }
    }
  }

  /** Members of a structure, bit-fields included, are disjoint and lie within its size, exactly when the
      bytes reserved for every group of bit-fields cover it. They are then in order of declaration. */
  lemma LayoutIsSound(ms: seq<Member>)
    requires MembersOk(ms)
    ensures SoundStruct(ms) <==> Covered(ms, INIT, 0)
    ensures Covered(ms, INIT, 0) ==>
              Final(ms, INIT, false).alignMax > 0
              && Ascending(Places(ms, INIT, false), 0, Size(Final(ms, INIT, false), false))
  {
    assert Inv(INIT, [], 0, 0);
    AlignsStayPositive(ms, INIT);
    var ps, size := Places(ms, INIT, false), Size(Final(ms, INIT, false), false);
    assert [] + ps == ps;
    if Covered(ms, INIT, 0) {
      CoveredAscends(ms, INIT, [], 0, 0);
      AscendingIsSound(ps, size);
    } else {
      UncoveredClashes(ms, INIT, [], 0, 0);
    }
  }

  // ---- Layouts that are always sound --------------------------------------------------------------

  /** Every member has the alignment `u`, which is the size of every bit-field's type, and sizes are
      multiples of it. */
  ghost predicate Uniform(ms: seq<Member>, u: nat) {
    && u in {1, 2, 4, 8}
    && forall i :: 0 <= i < |ms| ==>
         match ms[i]
         case Normal(size, align) => align == u && size % u == 0
         case Bits(width, unit) => unit == u && width <= 8 * u
  }

  /** An open or just closed group lies in one unit; what is closed ends at a unit's end. */
  ghost predicate UnitInv(st: State, u: nat, top: nat)
    requires u > 0
  {
    && st.first % u == 0 && st.alignMax in {1, u} && st.master in {0, u}
    && (st.cur > 0 ==> st.limit == 8 * u && st.cur < st.limit && st.master == u && st.alignMax == u
                       && st.first < st.offset <= st.first + u && top == 8 * st.first + st.cur)
    && (st.cur == 0 ==> top <= 8 * st.offset && st.offset % u == 0)
    && (st.offset > 0 ==> st.alignMax == u)
  }

  lemma RoundUpTo(x: nat, base: nat, u: nat)
    requires u > 0 && base % u == 0 && base < x <= base + u
    ensures RoundUp(x, u) == base + u
  {
    RoundUpFacts(x, u);
    SubMultiple(RoundUp(x, u), base, u);
    var d := RoundUp(x, u) - base;
    if d < u { ModAtMost(d, u); }
    if d > u { SubMultiple(d, u, u); ModAtMost(d - u, u); }
  }

  lemma RoundUpMultiple(x: nat, u: nat, a: nat)
    requires u > 0 && a > 0 && x % u == 0 && u % a == 0
    ensures RoundUp(x, a) == x
  {
    MultipleOfMultiple(x, u, a);
  }

  /** The unit that holds the member at a place. */
  ghost predicate WithinUnit(p: Place, u: nat)
    requires u > 0
  {
    p.byte % u == 0 && p.End() <= 8 * p.byte + 8 * u
  }

  lemma UnitStep(st: State, m: Member, u: nat, top: nat)
    requires u > 0 && Uniform([m], u) && UnitInv(st, u, top) && m.Bits? && m.width > 0
    ensures var p := At(st, m, false);
            && WithinUnit(p, u) && (Continues(st, m) || top <= p.Start())
            && UnitInv(Step(st, m, false), u, Top(p, top))
  {
    assert m == [m][0];
    if Continues(st, m) { UnitContinues(st, m, u, top); } else { UnitStarts(st, m, u, top); }
  }

  lemma UnitContinues(st: State, m: Member, u: nat, top: nat)
    requires u > 0 && UnitInv(st, u, top) && m.Bits? && m.unit == u && Continues(st, m)
    ensures WithinUnit(At(st, m, false), u) && UnitInv(Step(st, m, false), u, Top(At(st, m, false), top))
  {
    if st.cur + m.width == 8 * u { FullUnit(st.offset, st.first, u); }
  }

  lemma UnitStarts(st: State, m: Member, u: nat, top: nat)
    requires u in {1, 2, 4, 8} && UnitInv(st, u, top)
    requires m.Bits? && m.width > 0 && m.unit == u && m.width <= 8 * u && !Continues(st, m)
    ensures var p := At(st, m, false);
            WithinUnit(p, u) && top <= p.Start() && UnitInv(Step(st, m, false), u, Top(p, top))
  {
    FreshUnit(st, m, u, top);
    var byte := At(st, m, false).byte;
    if m.width == 8 * u { FullUnit(byte + Storage(m.width), byte, u); }
  }

  lemma FullUnit(end: nat, byte: nat, u: nat)
    requires u > 0 && byte % u == 0 && byte < end <= byte + u
    ensures FinishGroup(end, u) == byte + u && (byte + u) % u == 0
  {
    RoundUpTo(end, byte, u);
    AddMultiple(u, byte, u);
  }

  lemma FreshUnit(st: State, m: Member, u: nat, top: nat)
    requires u in {1, 2, 4, 8} && UnitInv(st, u, top)
    requires m.Bits? && m.width > 0 && m.unit == u && m.width <= 8 * u && !Continues(st, m)
    ensures var p := At(st, m, false);
            p.byte % u == 0 && top <= p.Start() && p.bit == 0 && st.offset <= p.byte
  {
    if st.cur > 0 {
      RoundUpTo(st.offset, st.first, u);
      AddMultiple(u, st.first, u);
    } else {
      RoundUpMultiple(st.offset, u, u);
    }
    assert u % Storage(m.width) == 0;
    RoundUpMultiple(OpenOffset(st), u, Storage(m.width));
  }

  lemma UnitStepNormal(st: State, m: Member, u: nat, top: nat)
    requires u > 0 && Uniform([m], u) && UnitInv(st, u, top) && m.Normal? && m.align > 0
    ensures var p := At(st, m, false);
            top <= p.Start() && UnitInv(Step(st, m, false), u, Top(p, top))
  {
    assert m == [m][0];
    var p := At(st, m, false);
    if st.cur > 0 {
      RoundUpTo(st.offset, st.first, u);
      AddMultiple(u, st.first, u);
    } else {
      RoundUpMultiple(st.offset, u, u);
    }
    AddMultiple(p.byte, m.size, u);
  }

  lemma {:induction false} UniformCovered(ms: seq<Member>, st: State, u: nat, top: nat)
    requires u > 0 && MembersOk(ms) && Uniform(ms, u) && UnitInv(st, u, top)
    ensures Covered(ms, st, top)
    ensures forall i :: 0 <= i < |ms| && ms[i].Bits? && ms[i].width > 0 ==> WithinUnit(Places(ms, st, false)[i], u)
    decreases |ms|
  {
    if ms == [] {
      if st.cur > 0 { RoundUpTo(st.offset, st.first, u); }
      else { RoundUpFacts(st.offset, st.alignMax); }
    } else {
      var m := ms[0];
      assert Uniform([m], u);
      if m.Normal? { UnitStepNormal(st, m, u, top); }
      else if m.width > 0 { UnitStep(st, m, u, top); }
      var p, st' := At(st, m, false), Step(st, m, false);
      UniformCovered(ms[1..], st', u, Top(p, top));
      var rest, ps := Places(ms[1..], st', false), Places(ms, st, false);
      assert forall i :: 0 < i < |ps| ==> ps[i] == rest[i - 1] && ms[i] == ms[1..][i - 1];
    }
  }

  /** With one alignment throughout, every bit-field lies within a unit of its type, no members overlap,
      and the size covers all of them. */
  lemma UniformIsSound(ms: seq<Member>, u: nat)
    requires MembersOk(ms) && Uniform(ms, u)
    ensures SoundStruct(ms)
    ensures forall i :: 0 <= i < |ms| && ms[i].Bits? && ms[i].width > 0 ==> WithinUnit(Places(ms, INIT, false)[i], u)
  {
    UniformCovered(ms, INIT, u, 0);
    LayoutIsSound(ms);
  }

  lemma {:induction false} OpenGroupHasRoom(ms: seq<Member>, st: State)
    requires MembersOk(ms) && (st.cur < st.limit || st.master == 0)
    ensures var end := Final(ms, st, false); end.cur < end.limit || end.master == 0
  {
    if ms != [] { OpenGroupHasRoom(ms[1..], Step(st, ms[0], false)); }
  }

  lemma RealignedGroup(st: State, next: Member)
    requires MemberOk(next) && next.Bits? && next.width > 0 && st.realign
    ensures var p := At(st, next, false);
            && p.bit == 0 && p.byte >= st.offset && p.byte % Storage(next.width) == 0
            && (Storage(next.width) <= st.master && st.master in {1, 2, 4, 8} ==> p.byte % st.master == 0)
  {
    if st.master > 0 { RoundUpFacts(st.offset, st.master); }
    var open, storage := OpenOffset(st), Storage(next.width);
    RoundUpFacts(open, storage);
    if storage <= st.master && st.master in {1, 2, 4, 8} {
      assert st.master % storage == 0;
      RoundUpMultiple(open, st.master, storage);
    }
  }

  /** After any members, a zero-width bit-field takes no space, and the bit-field after it starts a fresh
      unit of the type of the group before. */
  lemma ZeroWidthStartsAfresh(before: seq<Member>, zero: Member, next: Member)
    requires MembersOk(before) && MemberOk(zero) && zero.Bits? && zero.width == 0
    requires MemberOk(next) && next.Bits? && next.width > 0
    ensures var st := Final(before, INIT, false);
            var st' := Step(st, zero, false);
            var p := At(st', next, false);
            && At(st, zero, false).bits == 0 && st'.offset == st.offset && st'.alignMax == st.alignMax
            && !Continues(st', next)
            && p.bit == 0 && p.byte >= st.offset && p.byte % Storage(next.width) == 0
            && (Storage(next.width) <= st.master && st.master in {1, 2, 4, 8} ==> p.byte % st.master == 0)
  {
    var st := Final(before, INIT, false);
    OpenGroupHasRoom(before, INIT);
    RealignedGroup(Step(st, zero, false), next);
  }

  lemma ThreePlaces(a: Member, b: Member, c: Member, union: bool)
    requires MemberOk(a) && MemberOk(b) && MemberOk(c)
    ensures var s1 := Step(INIT, a, union);
            var s2 := Step(s1, b, union);
            && MembersOk([a, b, c])
            && Places([a, b, c], INIT, union) == [At(INIT, a, union), At(s1, b, union), At(s2, c, union)]
            && Final([a, b, c], INIT, union) == Step(s2, c, union)
  {
    var s1 := Step(INIT, a, union);
    var s2 := Step(s1, b, union);
    var ms := [a, b, c];
    assert ms[0] == a && ms[1..] == [b, c] && [b, c][1..] == [c] && [c][1..] == [];
    assert Places([c], s2, union) == [At(s2, c, union)];
    assert Places([b, c], s1, union) == [At(s1, b, union), At(s2, c, union)];
    assert Final([c], s2, union) == Step(s2, c, union);
    assert Final([b, c], s1, union) == Final([c], s2, union);
  }

  /** `struct { int a : 4; int b : 20; char c; }`: c lies inside b. */
  lemma MemberInsideBitField()
    ensures MembersOk([Bits(4, 4), Bits(20, 4), Normal(1, 1)])
    ensures Places([Bits(4, 4), Bits(20, 4), Normal(1, 1)], INIT, false) == [Place(0, 0, 4), Place(0, 4, 20),
              Place(1, 0, 8)]
    ensures Overlap(Place(0, 4, 20), Place(1, 0, 8))
  {
    assert PowerOfTwo(1);
    ThreePlaces(Bits(4, 4), Bits(20, 4), Normal(1, 1), false);
  }

  /** `struct { char c; int a : 4; int b : 28; }`: the group starts at byte 1, and b ends outside. */
  lemma BitFieldOutsideStruct()
    ensures MembersOk([Normal(1, 1), Bits(4, 4), Bits(28, 4)])
    ensures Places([Normal(1, 1), Bits(4, 4), Bits(28, 4)], INIT, false) == [Place(0, 0, 8), Place(1, 0, 4), Place(1,
              4, 28)]
    ensures Size(Final([Normal(1, 1), Bits(4, 4), Bits(28, 4)], INIT, false), false) == 4 < Place(1, 4, 28).End() / 8
  {
    assert PowerOfTwo(1);
    ThreePlaces(Normal(1, 1), Bits(4, 4), Bits(28, 4), false);
  }

  /** `union { int a : 20; int b : 20; char c; }`: b does not start where the union does, and lies outside. */
  lemma BitFieldOutsideUnion()
    ensures MembersOk([Bits(20, 4), Bits(20, 4), Normal(1, 1)])
    ensures Places([Bits(20, 4), Bits(20, 4), Normal(1, 1)], INIT, true) == [Place(0, 0, 20), Place(4, 0, 20),
              Place(0, 0, 8)]
    ensures Size(Final([Bits(20, 4), Bits(20, 4), Normal(1, 1)], INIT, true), true) == 4
  {
    assert PowerOfTwo(1);
    ThreePlaces(Bits(20, 4), Bits(20, 4), Normal(1, 1), true);
  }

  // ---- Unions ----------------------------------------------------------------------------------------

  predicate Field(m: Member) { m.Bits? && m.width > 0 }

  /** How many bit-fields that have a width. */
  function Fields(ms: seq<Member>): nat {
    if ms == [] then 0 else (if Field(ms[0]) then 1 else 0) + Fields(ms[1..])
  }

  ghost predicate AllAtZero(ps: seq<Place>) {
    forall i :: 0 <= i < |ps| && ps[i].bits > 0 ==> ps[i].Start() == 0
  }

  /** After a bit-field, the next one does not start at zero. */
  lemma {:induction false} NoSecondField(ms: seq<Member>, st: State)
    requires MembersOk(ms) && st.offset > 0
    ensures AllAtZero(Places(ms, st, true)) <==> Fields(ms) == 0
  {
    if ms != [] {
      var st', p := Step(st, ms[0], true), At(st, ms[0], true);
      if st.master > 0 { RoundUpFacts(st.offset, st.master); }
      if Field(ms[0]) {
        RoundUpFacts(OpenOffset(st), Storage(ms[0].width));
        assert Places(ms, st, true)[0] == p && p.Start() > 0;
      } else {
        NoSecondField(ms[1..], st');
        PlacesTail(ms, st);
      }
    }
  }

  lemma PlacesTail(ms: seq<Member>, st: State)
    requires MembersOk(ms) && ms != []
    ensures var ps := Places(ms, st, true);
            AllAtZero(ps) <==> AllAtZero([ps[0]]) && AllAtZero(Places(ms[1..], Step(st, ms[0], true), true))
  {
    var ps, rest := Places(ms, st, true), Places(ms[1..], Step(st, ms[0], true), true);
    assert forall i :: 0 < i < |ps| ==> ps[i] == rest[i - 1];
    assert forall i :: 0 <= i < |rest| ==> rest[i] == ps[i + 1];
  }

  lemma FirstField(st: State, m: Member)
    requires MemberOk(m) && Field(m) && st.offset == 0 && st.cur == 0 && st.master == 0
    ensures At(st, m, true).Start() == 0 && Step(st, m, true).offset > 0
  {
    RoundUpFacts(Storage(m.width), m.unit);
  }

  lemma {:induction false} UnionFrom(ms: seq<Member>, st: State)
    requires MembersOk(ms) && st.offset == 0 && st.cur == 0 && st.master == 0
    ensures AllAtZero(Places(ms, st, true)) <==> Fields(ms) <= 1
  {
    if ms != [] {
      var st' := Step(st, ms[0], true);
      PlacesTail(ms, st);
      if Field(ms[0]) {
        FirstField(st, ms[0]);
        NoSecondField(ms[1..], st');
      } else {
        UnionFrom(ms[1..], st');
      }
    }
  }

  lemma {:induction false} CountsGrow(ms: seq<Member>, st: State)
    requires MembersOk(ms)
    ensures st.sizeMax <= Final(ms, st, true).sizeMax && st.alignMax <= Final(ms, st, true).alignMax
  {
    if ms != [] { CountsGrow(ms[1..], Step(st, ms[0], true)); }
  }

  lemma UnionCovers(end: State, sizeMax: nat, alignMax: nat)
    requires sizeMax <= end.sizeMax && 0 < alignMax <= end.alignMax
    ensures sizeMax <= Size(end, true) && (sizeMax > 0 ==> alignMax <= Size(end, true))
  {
    RoundUpFacts(end.sizeMax, end.alignMax);
    if Size(end, true) < end.alignMax { ModAtMost(Size(end, true), end.alignMax); }
  }

  lemma FirstEnds(st: State, m: Member, end: State)
    requires MemberOk(m) && st.alignMax > 0 && (Field(m) ==> st.offset == 0 && st.cur == 0 && st.master == 0)
    requires var st' := Step(st, m, true); st'.sizeMax <= end.sizeMax && st'.alignMax <= end.alignMax
    ensures var p := At(st, m, true); p.bits > 0 ==> p.End() <= 8 * Size(end, true)
  {
    var st' := Step(st, m, true);
    UnionCovers(end, st'.sizeMax, st'.alignMax);
    if Field(m) { FirstField(st, m); }
  }

  lemma WithinStep(p: Place, rest: seq<Place>, size: nat)
    requires Within(rest, size) && (p.bits > 0 ==> p.End() <= 8 * size)
    ensures Within([p] + rest, size)
  {
    var ps := [p] + rest;
    assert forall i :: 0 < i < |ps| ==> ps[i] == rest[i - 1];
  }

  lemma {:induction false} UnionEnds(ms: seq<Member>, st: State)
    requires MembersOk(ms) && st.alignMax > 0 && Fields(ms) <= 1
    requires Fields(ms) == 0 || (st.offset == 0 && st.cur == 0 && st.master == 0)
    ensures Final(ms, st, true).alignMax > 0
    ensures Within(Places(ms, st, true), Size(Final(ms, st, true), true))
  {
    if ms != [] {
      var st', p, end := Step(st, ms[0], true), At(st, ms[0], true), Final(ms, st, true);
      UnionEnds(ms[1..], st');
      CountsGrow(ms[1..], st');
      FirstEnds(st, ms[0], end);
      WithinStep(p, Places(ms[1..], st', true), Size(end, true));
    }
  }

  ghost predicate Within(ps: seq<Place>, size: nat) {
    forall i :: 0 <= i < |ps| && ps[i].bits > 0 ==> ps[i].End() <= 8 * size
  }

  /** All members of a union start where it starts exactly when at most one of them is a bit-field with a
      width, and then all end within its size. */
  lemma MembersOfUnionOverlay(ms: seq<Member>)
    requires MembersOk(ms)
    ensures AllAtZero(Places(ms, INIT, true)) <==> Fields(ms) <= 1
    ensures Fields(ms) <= 1 ==>
              Final(ms, INIT, true).alignMax > 0 && Within(Places(ms, INIT, true), Size(Final(ms, INIT, true), true))
  {
    UnionFrom(ms, INIT);
    if Fields(ms) <= 1 { UnionEnds(ms, INIT); }
  }
}
