/**
  Which declarations of bit-fields are laid out soundly, told from the widths, types and sizes of the members
  alone, without laying them out.
*/
module BitFieldFit {
  import opened Arithmetic
  import opened Packing
  import opened StructLayout
  import opened LayoutSoundness

  /** What the rule remembers of the members so far: the bits in the open group, zero if none is open; the bits
      reserved by its first field; the declared type of the last group, zero before any; whether a zero width
      came last; whether the open group starts on a multiple of its type's size; and how far beyond a multiple
      of eight bytes the next member may start. */
  datatype Group = Group(cur: nat, cap: nat, unit: nat, realign: bool, even: bool, past: nat)

  const NO_GROUP := Group(0, 0, 0, false, false, 0)

  /** Rounding up, of what is past a multiple of eight. */
  function RoundPast(past: nat, align: nat): nat
    requires align > 0
  {
    if align >= 8 then 0 else RoundUp(past, align) % 8
  }

  predicate Joins(g: Group, m: Member) {
    m.Bits? && m.width > 0 && !g.realign && g.cur > 0 && g.cur + m.width <= 8 * g.unit
  }

  /** Where a new group starts. */
  function StartPast(g: Group, m: Member): nat
    requires m.Bits?
  {
    RoundPast(if (g.realign || g.cur > 0) && g.unit > 0 then RoundPast(g.past, g.unit) else g.past, Storage(m.width))
  }

  /** The rule for one member: a bit-field stays within the bytes that the first of its group has reserved, or
      fills the group's type exactly, from a multiple of the type's size. */
  predicate Allows(g: Group, m: Member) {
    if !Field(m) then true
    else if Joins(g, m) then g.cur + m.width <= g.cap || (g.even && g.cur + m.width == 8 * g.unit)
    else m.width <= 8 * Storage(m.width)
  }

  function Advance(g: Group, m: Member): Group
    requires m.Normal? ==> m.align > 0
  {
    if m.Normal? then g.(cur := 0, past := (RoundPast(g.past, m.align) + m.size) % 8)
    else if m.width == 0 then g.(realign := true)
    else if Joins(g, m) then Closed(g.(cur := g.cur + m.width))
    else
      var start := StartPast(g, m);
      Closed(Group(m.width, 8 * Storage(m.width), m.unit, false, m.unit > 0 && start % m.unit == 0,
                   (start + Storage(m.width)) % 8))
  }

  /** A group that is exactly full is over. */
  function Closed(g: Group): Group {
    if g.cur == 8 * g.unit && g.unit > 0 then g.(cur := 0, past := RoundPast(g.past, g.unit)) else g
  }

  predicate Fit(ms: seq<Member>, g: Group)
    requires MembersNormal(ms)
  {
    ms == [] || (Allows(g, ms[0]) && Fit(ms[1..], Advance(g, ms[0])))
  }

  /** Members with some alignment. */
  predicate MembersNormal(ms: seq<Member>) {
    forall i :: 0 <= i < |ms| && ms[i].Normal? ==> ms[i].align > 0
  }

  // ---- The rule against the layout ---------------------------------------------------------------------

  /** What the rule remembers is so in the layout. */
  ghost predicate Tracks(g: Group, st: State) {
    && g.past == st.offset % 8 && g.realign == st.realign && g.cur == st.cur && g.unit == st.master
    && g.unit in {0, 1, 2, 4, 8} && (st.cur < st.limit || st.master == 0)
    && (g.cur > 0 ==>
          && g.unit > 0 && st.limit == 8 * g.unit && g.cur < st.limit
          && st.first <= st.offset && g.cap == 8 * (st.offset - st.first) && InGroup(g, st.first, st.offset - st.first))
  }

  /** A group starts on a multiple of the bytes it reserves, which are no more than its type's. */
  ghost predicate InGroup(g: Group, first: nat, storage: nat)
    requires g.unit > 0
  {
    storage in {1, 2, 4, 8} && storage <= g.unit && first % storage == 0 && (g.even <==> first % g.unit == 0)
  }

  lemma Past(x: nat, align: nat)
    requires PowerOfTwo(align)
    ensures RoundUp(x, align) % 8 == RoundPast(x % 8, align)
  {
    if align >= 8 {
      assert PowerOfTwo(8) && PowerOfTwo(4) && PowerOfTwo(2) && PowerOfTwo(1);
      RoundUpFacts(x, align);
      SmallerPowerDivides(8, align);
      MultipleOfMultiple(RoundUp(x, align), align, 8);
    } else {
      SmallPower(align);
      PastSmall(x, align);
    }
  }

  lemma PastSmall(x: nat, align: nat)
    requires align in {1, 2, 4}
    ensures RoundUp(x, align) % 8 == RoundUp(x % 8, align) % 8
  {
    var q, r := x / 8, x % 8;
    TimesMultiple(q, 8, align);
    AddMultiple(r, q * 8, align);
    MultipleMod(q, 8);
    AddMultiple(RoundUp(r, align), q * 8, 8);
  }

  lemma SmallPower(align: nat)
    requires PowerOfTwo(align) && align < 8
    ensures align in {1, 2, 4}
  {}

  lemma PastUnit(x: nat, unit: nat)
    requires unit in {1, 2, 4, 8}
    ensures RoundUp(x, unit) % 8 == RoundPast(x % 8, unit) && RoundUp(x, unit) % unit == 0
    ensures (x % 8) % unit == x % unit
  {
    assert PowerOfTwo(8) && PowerOfTwo(4) && PowerOfTwo(2) && PowerOfTwo(1);
    Past(x, unit);
    RoundUpFacts(x, unit);
    BlockMod(x, x / 8, x % 8, unit, 8);
  }

  lemma PastSum(x: nat, size: nat)
    ensures (x + size) % 8 == (x % 8 + size) % 8
  {}

  lemma TracksNormal(g: Group, st: State, m: Member)
    requires MemberOk(m) && m.Normal? && Tracks(g, st)
    ensures Tracks(Advance(g, m), Step(st, m, false))
  {
    Past(st.offset, m.align);
    PastSum(RoundUp(st.offset, m.align), m.size);
  }

  /** Where a group starts, and what the rule knows of it. */
  lemma TracksStart(g: Group, st: State, m: Member)
    requires MemberOk(m) && Field(m) && Tracks(g, st) && !Continues(st, m)
    ensures var first := At(st, m, false).byte;
            first % 8 == StartPast(g, m) && first % Storage(m.width) == 0
    ensures var first := At(st, m, false).byte;
            (first % m.unit == 0 <==> StartPast(g, m) % m.unit == 0) && Storage(m.width) <= m.unit
  {
    if st.master > 0 { PastUnit(st.offset, st.master); }
    PastUnit(OpenOffset(st), Storage(m.width));
    PastUnit(At(st, m, false).byte, m.unit);
  }

  lemma TracksField(g: Group, st: State, m: Member)
    requires MemberOk(m) && Field(m) && Tracks(g, st)
    ensures Joins(g, m) == Continues(st, m) && Tracks(Advance(g, m), Step(st, m, false))
  {
    if Continues(st, m) { PastUnit(st.offset, st.master); } else { TracksGroup(g, st, m); }
  }

  lemma TracksGroup(g: Group, st: State, m: Member)
    requires MemberOk(m) && Field(m) && Tracks(g, st) && !Continues(st, m)
    ensures Tracks(Advance(g, m), Step(st, m, false))
  {
    TracksStart(g, st, m);
    var first := At(st, m, false).byte;
    PastSum(first, Storage(m.width));
    PastUnit(first + Storage(m.width), m.unit);
  }

  lemma TracksKept(g: Group, st: State, m: Member)
    requires MemberOk(m) && Tracks(g, st)
    ensures Joins(g, m) == Continues(st, m) && Tracks(Advance(g, m), Step(st, m, false))
  {
    if m.Normal? { TracksNormal(g, st, m); } else if m.width > 0 { TracksField(g, st, m); }
  }

  /** What an allowed bit-field ends at has been reserved. */
  lemma AllowedReserved(g: Group, st: State, m: Member, top: nat)
    requires MemberOk(m) && Tracks(g, st) && top <= 8 * st.offset && Allows(g, m)
    ensures var p := At(st, m, false);
            && (p.bits == 0 || Continues(st, m) || top <= p.Start())
            && Top(p, top) <= 8 * Step(st, m, false).offset
  {
    TracksKept(g, st, m);
    OffsetGrows(st, m);
    if Field(m) && Continues(st, m) && st.cur + m.width == st.limit {
      FilledEnd(g, st);
    }
  }

  /** Where an exactly filled group ends, after the offset has been rounded up. */
  lemma FilledEnd(g: Group, st: State)
    requires Tracks(g, st) && g.cur > 0
    ensures var end := FinishGroup(st.offset, st.master);
            && (g.even ==> end == st.first + st.master)
            && (!g.even && g.cap < 8 * g.unit ==> end < st.first + st.master)
            && end >= st.offset
  {
    RoundUpFacts(st.offset, st.master);
    if g.even {
      RoundUpTo(st.offset, st.first, st.master);
    } else if g.cap < 8 * g.unit {
      UnevenEnd(st.first, st.offset - st.first, st.master);
    }
  }

  lemma UnevenEnd(first: nat, storage: nat, unit: nat)
    requires unit in {1, 2, 4, 8} && storage in {1, 2, 4, 8} && storage < unit
    requires first % storage == 0 && first % unit != 0
    ensures RoundUp(first + storage, unit) < first + unit
  {
    var past := first % unit;
    ModAtMost(first, unit);
    var base := first - past;
    DivModUnique(base, unit, first / unit, 0);
    assert unit % storage == 0;
    MultipleOfMultiple(base, unit, storage);
    SubMultiple(first, base, storage);
    SubMultiple(unit, past, storage);
    ModAtMost(unit - past, storage);
    RoundUpTo(first + storage, base, unit);
  }

  lemma {:induction false} FitIsCovered(ms: seq<Member>, g: Group, st: State, top: nat)
    requires MembersOk(ms) && st.alignMax > 0 && Tracks(g, st) && top <= 8 * st.offset && Fit(ms, g)
    ensures Covered(ms, st, top)
  {
    if ms == [] {
      RoundUpFacts(st.offset, st.alignMax);
    } else {
      AllowedReserved(g, st, ms[0], top);
      TracksKept(g, st, ms[0]);
      FitIsCovered(ms[1..], Advance(g, ms[0]), Step(st, ms[0], false), Top(At(st, ms[0], false), top));
    }
  }

  /** What follows a bit-field that is not allowed starts inside it. */
  lemma RefusedIsOver(g: Group, st: State, m: Member, top: nat)
    requires MemberOk(m) && Tracks(g, st) && !Allows(g, m)
    requires Open(st, top)
    ensures Top(At(st, m, false), top) > 8 * Step(st, m, false).offset
  {
    TracksKept(g, st, m);
    if Continues(st, m) { FilledEnd(g, st); }
  }

  const BYTE := Normal(1, 1)

  lemma {:induction false} UnfitIsUncovered(ms: seq<Member>, g: Group, st: State, top: nat) returns (k: nat)
    requires MembersOk(ms) && st.alignMax > 0 && Tracks(g, st) && !Fit(ms, g)
    requires Open(st, top)
    ensures k <= |ms| && MembersOk(ms[..k] + [BYTE]) && !Covered(ms[..k] + [BYTE], st, top)
  {
    var m := ms[0];
    var st', top' := Step(st, m, false), Top(At(st, m, false), top);
    if Allows(g, m) {
      TracksKept(g, st, m);
      OpenKept(g, st, m, top);
      k := UnfitIsUncovered(ms[1..], Advance(g, m), st', top');
    } else {
      k := 0;
      RefusedIsOver(g, st, m, top);
      ByteInside(st', top');
      CutLater(ms, 0);
    }
    UncoveredAfter(m, ms[1..][..k] + [BYTE], st, top);
    CutLater(ms, k);
    k := k + 1;
  }

  lemma CutLater(ms: seq<Member>, k: nat)
    requires k < |ms|
    ensures ms[..k + 1] + [BYTE] == [ms[0]] + (ms[1..][..k] + [BYTE]) && ms[1..][..0] + [BYTE] == [BYTE]
  {}

  /** After the member `m`, what follows starts where the layout has come to. */
  ghost predicate Open(st: State, top: nat) {
    st.cur > 0 ==> top == 8 * st.first + st.cur
  }

  lemma OpenKept(g: Group, st: State, m: Member, top: nat)
    requires MemberOk(m) && Tracks(g, st) && Open(st, top)
    ensures Open(Step(st, m, false), Top(At(st, m, false), top))
  {}

  lemma ByteInside(st: State, top: nat)
    requires st.alignMax > 0 && top > 8 * st.offset
    ensures MembersOk([BYTE]) && !Covered([BYTE], st, top)
  {
    assert PowerOfTwo(1) && RoundUp(st.offset, 1) == st.offset;
  }

  lemma UncoveredAfter(m: Member, rest: seq<Member>, st: State, top: nat)
    requires MemberOk(m) && MembersOk(rest) && st.alignMax > 0
    requires !Covered(rest, Step(st, m, false), Top(At(st, m, false), top))
    ensures MembersOk([m] + rest) && !Covered([m] + rest, st, top)
  {
    assert ([m] + rest)[1..] == rest;
  }

  lemma {:induction false} FitPrefix(ms: seq<Member>, k: nat, g: Group)
    requires MembersOk(ms) && k <= |ms| && Fit(ms, g)
    ensures MembersOk(ms[..k] + [BYTE]) && Fit(ms[..k] + [BYTE], g)
  {
    assert PowerOfTwo(1);
    var some := ms[..k] + [BYTE];
    if k == 0 {
      assert some == [BYTE];
      assert Fit(some[1..], Advance(g, BYTE));
    } else {
      FitPrefix(ms[1..], k - 1, Advance(g, ms[0]));
      assert some == [ms[0]] + (ms[1..][..k - 1] + [BYTE]);
      assert some[1..] == ms[1..][..k - 1] + [BYTE];
    }
  }

  /** A structure whose bit-fields fit is laid out soundly. */
  lemma FitIsSound(ms: seq<Member>)
    requires MembersOk(ms) && Fit(ms, NO_GROUP)
    ensures SoundStruct(ms)
  {
    FitIsCovered(ms, NO_GROUP, INIT, 0);
    LayoutIsSound(ms);
  }

  /** Whether the bit-fields fit is told from the declared members alone, and is exactly what it takes: they do
      if and only if the structure stays sound when it is cut off after any of its members and a single byte is
      put there. */
  lemma FitIffSoundBeforeByte(ms: seq<Member>)
    requires MembersOk(ms)
    ensures MemberOk(BYTE)
    ensures Fit(ms, NO_GROUP) <==>
            forall k :: 0 <= k <= |ms| ==> SoundStruct(ms[..k] + [BYTE])
  {
    if Fit(ms, NO_GROUP) {
      forall k | 0 <= k <= |ms| ensures SoundStruct(ms[..k] + [BYTE]) {
        FitPrefix(ms, k, NO_GROUP);
        FitIsSound(ms[..k] + [BYTE]);
      }
    } else {
      var k := UnfitIsUncovered(ms, NO_GROUP, INIT, 0);
      LayoutIsSound(ms[..k] + [BYTE]);
      assert !SoundStruct(ms[..k] + [BYTE]);
    }
  }

  lemma FilledFits()
    ensures var a := [Bits(4, 4), Bits(28, 4), BYTE]; MembersOk(a) && Fit(a, NO_GROUP)
  {
    assert PowerOfTwo(1);
    var a := [Bits(4, 4), Bits(28, 4), BYTE];
    assert a[1..] == [Bits(28, 4), BYTE] && [Bits(28, 4), BYTE][1..] == [BYTE] && [BYTE][1..] == [];
    var g := Advance(NO_GROUP, Bits(4, 4));
    assert g == Group(4, 8, 4, false, true, 1);
    assert Allows(g, Bits(28, 4)) && Fit([BYTE], Advance(g, Bits(28, 4)));
  }

  lemma PassedAfterByte()
    ensures var b := [BYTE, Bits(4, 4), Bits(28, 4)]; MembersOk(b) && !Fit(b, NO_GROUP)
  {
    assert PowerOfTwo(1);
    var b := [BYTE, Bits(4, 4), Bits(28, 4)];
    assert b[1..] == [Bits(4, 4), Bits(28, 4)] && b[1..][1..] == [Bits(28, 4)];
    var h := Advance(Advance(NO_GROUP, BYTE), Bits(4, 4));
    assert h == Group(4, 8, 4, false, false, 2);
    assert !Allows(h, Bits(28, 4)) && !Fit([Bits(28, 4)], h);
    assert !Fit(b[1..], Advance(NO_GROUP, BYTE));
  }

  /** `struct { int a : 4; int b : 28; char c; }` is sound, although b passes the byte reserved for a: the group
      is exactly full and starts on a multiple of its type's size. Not so after a `char`. */
  lemma FilledGroup()
    ensures var a := [Bits(4, 4), Bits(28, 4), BYTE]; MembersOk(a) && Fit(a, NO_GROUP) && SoundStruct(a)
    ensures var b := [BYTE, Bits(4, 4), Bits(28, 4)]; MembersOk(b) && !Fit(b, NO_GROUP)
  {
    FilledFits();
    FitIsSound([Bits(4, 4), Bits(28, 4), BYTE]);
    PassedAfterByte();
  }
}
