/** Where the first bit-fields of a structure go, and what follows them, in numbers (src/cc1/fold_sue.c). */
module LayoutTables {
  import opened Arithmetic
  import opened Packing
  import opened StructLayout
  import opened LayoutSoundness

  /** The bytes that are reserved for a bit-field that starts a group, whatever type it is declared with. */
  function Reserved(width: nat): nat {
    if width <= 8 then 1 else if width <= 24 then 2 else if width <= 56 then 4 else 8
  }

  lemma ReservedIsStorage(width: nat, unit: nat)
    requires unit in {1, 2, 4, 8} && 0 < width <= 8 * unit
    ensures Storage(width) == Reserved(width) <= unit && unit % Reserved(width) == 0
  {}

  lemma FieldFirst(width: nat, unit: nat)
    requires unit in {1, 2, 4, 8} && 0 < width <= 8 * unit
    ensures At(INIT, Bits(width, unit), false) == Place(0, 0, width)
    ensures var st := Step(INIT, Bits(width, unit), false);
            && st.first == 0 && st.limit == 8 * unit && st.master == unit && !st.realign && st.alignMax == unit
            && st.cur == (if width == 8 * unit then 0 else width)
            && st.offset == if width == 8 * unit then unit else Reserved(width)
  {
    ReservedIsStorage(width, unit);
    assert RoundUp(0, Reserved(width)) == 0;
    assert RoundUp(Reserved(width), unit) == unit;
  }

  /** A structure of one bit-field has the size and the alignment of its declared type. */
  lemma OneField(width: nat, unit: nat)
    requires unit in {1, 2, 4, 8} && 0 < width <= 8 * unit
    ensures MembersOk([Bits(width, unit)])
    ensures var ms := [Bits(width, unit)];
            var end := Final(ms, INIT, false);
            Places(ms, INIT, false) == [Place(0, 0, width)] && end.alignMax == unit && Size(end, false) == unit
  {
    FieldFirst(width, unit);
    ReservedIsStorage(width, unit);
    var m := Bits(width, unit);
    assert [m][1..] == [];
    assert RoundUp(Reserved(width), unit) == unit == RoundUp(unit, unit);
  }

  lemma TwoPlaces(a: Member, b: Member)
    requires MemberOk(a) && MemberOk(b)
    ensures MembersOk([a, b])
    ensures Places([a, b], INIT, false) == [At(INIT, a, false), At(Step(INIT, a, false), b, false)]
  {
    assert [a, b][1..] == [b] && [b][1..] == [];
    var s := Step(INIT, a, false);
    assert Places([b], s, false) == [At(s, b, false)];
  }

  /** After a bit-field, a member that is none goes to the first place that it may have behind the bytes reserved, or
      behind the declared type if the field fills that. */
  lemma FieldThenMember(width: nat, unit: nat, m: Member)
    requires unit in {1, 2, 4, 8} && 0 < width <= 8 * unit && MemberOk(m) && m.Normal?
    ensures MembersOk([Bits(width, unit), m])
    ensures var ps := Places([Bits(width, unit), m], INIT, false);
            && ps[0] == Place(0, 0, width) && ps[1].bit == 0 && ps[1].bits == 8 * m.size
            && LeastMultiple(ps[1].byte, if width == 8 * unit then unit else Reserved(width), m.align)
  {
    FieldFirst(width, unit);
    TwoPlaces(Bits(width, unit), m);
    RoundUpIsLeast(if width == 8 * unit then unit else Reserved(width), m.align);
  }

  lemma SecondStarts(a: nat, u: nat, b: nat, v: nat, st: State)
    requires u in {1, 2, 4, 8} && v in {1, 2, 4, 8} && 0 < a <= 8 * u && 0 < b <= 8 * v && a + b > 8 * u
    requires st == Step(INIT, Bits(a, u), false)
    ensures var p := At(st, Bits(b, v), false);
            p.bits == b && p.bit == 0 && LeastMultiple(p.byte, u, Reserved(b))
  {
    FieldFirst(a, u);
    ReservedIsStorage(a, u);
    ReservedIsStorage(b, v);
    assert FinishGroup(st.offset, st.master) == u;
    RoundUpIsLeast(u, Reserved(b));
  }

  /** A second bit-field goes right behind the first where the first one's type has room for both; otherwise to the
      first place that what is reserved for it may have behind that type. */
  lemma TwoFields(a: nat, u: nat, b: nat, v: nat)
    requires u in {1, 2, 4, 8} && v in {1, 2, 4, 8} && 0 < a <= 8 * u && 0 < b <= 8 * v
    ensures MembersOk([Bits(a, u), Bits(b, v)])
    ensures var ps := Places([Bits(a, u), Bits(b, v)], INIT, false);
            && ps[0] == Place(0, 0, a) && ps[1].bits == b
            && (a + b <= 8 * u ==> ps[1] == Place(0, a, b))
            && (a + b > 8 * u ==> ps[1].bit == 0 && LeastMultiple(ps[1].byte, u, Reserved(b)))
  {
    FieldFirst(a, u);
    TwoPlaces(Bits(a, u), Bits(b, v));
    if a + b > 8 * u { SecondStarts(a, u, b, v, Step(INIT, Bits(a, u), false)); }
  }
}
