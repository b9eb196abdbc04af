/**
  When a structure as it stands is laid out soundly, told from its declared members: by how far the open group of
  bit-fields overruns the bytes reserved for it, and whether the padding after it makes up for that.
*/
module BitFieldExact {
  import opened Arithmetic
  import opened Packing
  import opened StructLayout
  import opened LayoutSoundness
  import opened BitFieldFit

  /** What the rule remembers of the members so far: where the next may start, modulo some multiple of all
      alignments; by how many bits the last one reaches beyond that; the bits in the open group, zero if none is
      open, and the bits reserved for it; the size of the type of the last group, zero before any; whether a zero
      width came last; and the largest alignment. */
  datatype Rest = Rest(past: nat, over: nat, cur: nat, cap: nat, unit: nat, realign: bool, align: nat)

  const FRESH := Rest(0, 0, 0, 0, 0, false, 1)

  /** The padding before the next multiple. */
  function Gap(past: nat, align: nat): nat
    requires align > 0
  {
    if past % align == 0 then 0 else align - past % align
  }

  function Less(a: nat, b: nat): nat { if a <= b then 0 else a - b }

  /** After some bytes of padding. */
  function Skip(r: Rest, gap: nat, modulus: nat): Rest
    requires modulus > 0
  {
    r.(past := (r.past + gap) % modulus, over := Less(r.over, 8 * gap))
  }

  /** Before a new group of bit-fields: the last one is closed, and the bytes of the first field are aligned. */
  function Opened(r: Rest, m: Member, modulus: nat): Rest
    requires m.Bits? && modulus > 0
  {
    var closed := if (r.realign || r.cur > 0) && r.unit > 0 then Skip(r, Gap(r.past, r.unit), modulus) else r;
    Skip(closed, Gap(closed.past, Storage(m.width)), modulus)
  }

  predicate Extends(r: Rest, m: Member) {
    m.Bits? && m.width > 0 && !r.realign && r.cur > 0 && r.cur + m.width <= 8 * r.unit
  }

  /** Where a member is about to go: nothing may reach beyond there, unless it continues a group or is empty. */
  function Ready(r: Rest, m: Member, modulus: nat): Rest
    requires (m.Normal? ==> m.align > 0) && modulus > 0
  {
    if m.Normal? then Skip(r, Gap(r.past, m.align), modulus)
    else if m.width == 0 || Extends(r, m) then r
    else Opened(r, m, modulus)
  }

  predicate Clear(r: Rest, m: Member, modulus: nat)
    requires (m.Normal? ==> m.align > 0) && modulus > 0
  {
    (m.Normal? && m.size == 0) || (m.Bits? && (m.width == 0 || Extends(r, m))) || Ready(r, m, modulus).over == 0
  }

  /** A new group, before it may turn out full. */
  function Started(m: Member, past: nat, align: nat): Rest
    requires m.Bits?
  {
    Rest(past, Less(m.width, 8 * Storage(m.width)), m.width, 8 * Storage(m.width), m.unit, false, align)
  }

  /** After the member. */
  function Moved(r: Rest, m: Member, modulus: nat): Rest
    requires (m.Normal? ==> m.align > 0) && modulus > 0
  {
    var at := Ready(r, m, modulus);
    if m.Normal? then
      at.(past := (at.past + m.size) % modulus, over := if m.size == 0 then at.over else 0, cur := 0,
          align := Max(r.align, m.align))
    else if m.width == 0 then r.(realign := true)
    else if Extends(r, m) then Full(r.(cur := r.cur + m.width, over := Less(r.cur + m.width, r.cap)), modulus)
    else
      Full(Started(m, (at.past + Storage(m.width)) % modulus, Max(r.align, m.unit)), modulus)
  }

  /** A group that is exactly full is closed at once. */
  function Full(r: Rest, modulus: nat): Rest
    requires modulus > 0
  {
    if r.cur == 8 * r.unit && r.unit > 0 then Skip(r, Gap(r.past, r.unit), modulus).(cur := 0) else r
  }

  /** Every member starts clear of what precedes it, and the padding at the end covers what is left over. */
  predicate Padded(ms: seq<Member>, r: Rest, modulus: nat)
    requires MembersNormal(ms) && modulus > 0 && r.align > 0
  {
    if ms == [] then r.over <= 8 * Gap(r.past, r.align)
    else Clear(r, ms[0], modulus) && Padded(ms[1..], Moved(r, ms[0], modulus), modulus)
  }

  /** The largest alignment of any member, and of any bit-field's type. */
  function Modulus(ms: seq<Member>): (a: nat)
    ensures a >= 8
  {
    if ms == [] then 8
    else if ms[0].Normal? then Max(ms[0].align, Modulus(ms[1..]))
    else Modulus(ms[1..])
  }

  // ---- The rule against the layout ---------------------------------------------------------------------

  /** Where the next member may start, and how far the last one reaches beyond that. */
  ghost predicate Behind(r: Rest, offset: nat, top: nat, modulus: nat)
    requires modulus > 0
  {
    r.past == offset % modulus && r.over == Less(top, 8 * offset)
  }

  lemma GapIs(x: nat, align: nat, modulus: nat)
    requires align > 0 && modulus > 0 && modulus % align == 0
    ensures RoundUp(x, align) == x + Gap(x % modulus, align)
  {
    BlockMod(x, x / modulus, x % modulus, align, modulus);
  }

  lemma SumMod(x: nat, y: nat, modulus: nat)
    requires modulus > 0
    ensures (x % modulus + y) % modulus == (x + y) % modulus
  {
    var q, low := x / modulus, x % modulus;
    var t: nat := q * modulus;
    assert x == t + low;
    MultipleMod(q, modulus);
    SumPast(low + y, t, x + y, modulus);
  }

  lemma SumPast(x: nat, t: nat, sum: nat, modulus: nat)
    requires modulus > 0 && t % modulus == 0 && sum == x + t
    ensures x % modulus == sum % modulus
  {
    AddMultiple(x, t, modulus);
  }

  lemma SkipBehind(r: Rest, offset: nat, top: nat, align: nat, modulus: nat)
    requires align > 0 && modulus > 0 && modulus % align == 0 && Behind(r, offset, top, modulus)
    ensures Behind(Skip(r, Gap(r.past, align), modulus), RoundUp(offset, align), top, modulus)
  {
    GapIs(offset, align, modulus);
    SumMod(offset, Gap(r.past, align), modulus);
  }

  /** What the rule remembers is so in the layout. */
  ghost predicate Follows(r: Rest, st: State, top: nat, modulus: nat)
    requires modulus > 0
  {
    && Behind(r, st.offset, top, modulus)
    && r.cur == st.cur && r.unit == st.master && r.realign == st.realign && r.align == st.alignMax
    && r.unit in {0, 1, 2, 4, 8} && (st.cur < st.limit || st.master == 0)
    && (r.cur > 0 ==>
          && r.unit > 0 && st.limit == 8 * r.unit
          && st.first <= st.offset && r.cap == 8 * (st.offset - st.first) && top == 8 * st.first + st.cur)
  }

  /** All alignments divide the modulus. */
  ghost predicate Divides(m: Member, modulus: nat) {
    && MemberOk(m) && PowerOfTwo(modulus) && modulus >= 8 && (m.Normal? ==> m.align <= modulus)
  }

  lemma UnitDivides(unit: nat, modulus: nat)
    requires PowerOfTwo(modulus) && modulus >= 8 && unit in {1, 2, 4, 8}
    ensures modulus % unit == 0
  {
    assert PowerOfTwo(8) && PowerOfTwo(4) && PowerOfTwo(2) && PowerOfTwo(1);
    SmallerPowerDivides(unit, modulus);
  }

  lemma NormalFollows(r: Rest, st: State, top: nat, m: Member, modulus: nat)
    requires Divides(m, modulus) && m.Normal? && Follows(r, st, top, modulus)
    ensures var p := At(st, m, false);
            && (Clear(r, m, modulus) <==> p.bits == 0 || top <= p.Start())
            && Follows(Moved(r, m, modulus), Step(st, m, false), Top(p, top), modulus)
  {
    SmallerPowerDivides(m.align, modulus);
    SkipBehind(r, st.offset, top, m.align, modulus);
    SumMod(RoundUp(st.offset, m.align), m.size, modulus);
  }

  /** A group that has just grown or started, closed if it is full. */
  lemma FullFollows(r: Rest, st: State, top: nat, modulus: nat)
    requires PowerOfTwo(modulus) && modulus >= 8 && Behind(r, st.offset, top, modulus)
    requires r.cur == st.cur > 0 && r.unit == st.master && !st.realign && !r.realign && r.align == st.alignMax
    requires r.unit in {1, 2, 4, 8} && st.limit == 8 * r.unit && st.cur <= st.limit
    requires st.first <= st.offset && r.cap == 8 * (st.offset - st.first) && top == 8 * st.first + st.cur
    ensures Follows(Full(r, modulus), Filled(st), top, modulus)
  {
    UnitDivides(r.unit, modulus);
    SkipBehind(r, st.offset, top, r.unit, modulus);
  }

  lemma ExtendFollows(r: Rest, st: State, top: nat, m: Member, modulus: nat)
    requires Divides(m, modulus) && Field(m) && Follows(r, st, top, modulus) && Continues(st, m)
    ensures Extends(r, m) && Follows(Moved(r, m, modulus), Step(st, m, false), At(st, m, false).End(), modulus)
  {
    var r' := r.(cur := r.cur + m.width, over := Less(r.cur + m.width, r.cap));
    FullFollows(r', st.(cur := st.cur + m.width), At(st, m, false).End(), modulus);
  }

  lemma OpenedBehind(r: Rest, st: State, top: nat, m: Member, modulus: nat)
    requires Divides(m, modulus) && Field(m) && Follows(r, st, top, modulus) && !Continues(st, m)
    ensures Behind(Opened(r, m, modulus), At(st, m, false).byte, top, modulus)
  {
    var closed := r;
    if (r.realign || r.cur > 0) && r.unit > 0 {
      UnitDivides(r.unit, modulus);
      SkipBehind(r, st.offset, top, r.unit, modulus);
      closed := Skip(r, Gap(r.past, r.unit), modulus);
    }
    UnitDivides(Storage(m.width), modulus);
    SkipBehind(closed, OpenOffset(st), top, Storage(m.width), modulus);
  }

  lemma StartedFollows(m: Member, st: State, align: nat, modulus: nat)
    requires Divides(m, modulus) && Field(m) && st.cur == m.width && st.master == m.unit && st.limit == 8 * m.unit
    requires st.offset == st.first + Storage(m.width) && !st.realign && align == st.alignMax
    ensures Follows(Full(Started(m, st.offset % modulus, align), modulus), Filled(st), 8 * st.first + m.width, modulus)
  {
    FullFollows(Started(m, st.offset % modulus, align), st, 8 * st.first + m.width, modulus);
  }

  lemma StartFollows(r: Rest, st: State, top: nat, m: Member, modulus: nat)
    requires Divides(m, modulus) && Field(m) && Follows(r, st, top, modulus) && !Continues(st, m)
    ensures var p := At(st, m, false);
            && !Extends(r, m) && (Clear(r, m, modulus) <==> top <= p.Start())
            && Follows(Moved(r, m, modulus), Step(st, m, false), p.End(), modulus)
  {
    OpenedBehind(r, st, top, m, modulus);
    var byte := At(st, m, false).byte;
    SumMod(byte, Storage(m.width), modulus);
    var st' := State(byte + Storage(m.width), m.width, byte, 8 * m.unit, m.unit, false, Max(st.alignMax, m.unit),
                     Max(st.sizeMax, Storage(m.width)));
    StartedFollows(m, st', Max(r.align, m.unit), modulus);
    assert Moved(r, m, modulus) == Full(Started(m, st'.offset % modulus, Max(r.align, m.unit)), modulus);
  }

  lemma MemberFollows(r: Rest, st: State, top: nat, m: Member, modulus: nat)
    requires Divides(m, modulus) && Follows(r, st, top, modulus)
    ensures var p := At(st, m, false);
            && (Clear(r, m, modulus) <==> p.bits == 0 || Continues(st, m) || top <= p.Start())
            && Follows(Moved(r, m, modulus), Step(st, m, false), Top(p, top), modulus)
  {
    if m.Normal? { NormalFollows(r, st, top, m, modulus); }
    else if m.width > 0 {
      if Continues(st, m) { ExtendFollows(r, st, top, m, modulus); } else { StartFollows(r, st, top, m, modulus); }
    }
  }

  lemma {:induction false} PaddedIffCovered(ms: seq<Member>, r: Rest, st: State, top: nat, modulus: nat)
    requires MembersOk(ms) && (forall i :: 0 <= i < |ms| ==> Divides(ms[i], modulus))
    requires PowerOfTwo(modulus) && modulus >= 8 && Follows(r, st, top, modulus)
    requires PowerOfTwo(st.alignMax) && st.alignMax <= modulus
    ensures Padded(ms, r, modulus) <==> Covered(ms, st, top)
  {
    if ms == [] {
      SmallerPowerDivides(st.alignMax, modulus);
      GapIs(st.offset, st.alignMax, modulus);
    } else {
      var m := ms[0];
      assert Divides(m, modulus);
      AlignStays(st, m, modulus);
      MemberFollows(r, st, top, m, modulus);
      var st', p := Step(st, m, false), At(st, m, false);
      PaddedIffCovered(ms[1..], Moved(r, m, modulus), st', Top(p, top), modulus);
    }
  }

  lemma AlignStays(st: State, m: Member, modulus: nat)
    requires Divides(m, modulus) && PowerOfTwo(st.alignMax) && st.alignMax <= modulus
    ensures PowerOfTwo(Step(st, m, false).alignMax) && Step(st, m, false).alignMax <= modulus
  {
    assert PowerOfTwo(8) && PowerOfTwo(4) && PowerOfTwo(2) && PowerOfTwo(1);
  }

  lemma {:induction false} ModulusDivides(ms: seq<Member>)
    requires MembersOk(ms)
    ensures PowerOfTwo(Modulus(ms)) && forall i :: 0 <= i < |ms| && ms[i].Normal? ==> ms[i].align <= Modulus(ms)
  {
    assert PowerOfTwo(8) && PowerOfTwo(4) && PowerOfTwo(2) && PowerOfTwo(1);
    if ms != [] {
      ModulusDivides(ms[1..]);
      forall i | 0 <= i < |ms| && ms[i].Normal? ensures ms[i].align <= Modulus(ms) {
        if i > 0 { assert ms[i] == ms[1..][i - 1]; }
      }
    }
  }

  /** A structure is laid out soundly exactly when every member starts clear of what precedes it and the padding at
      the end covers the rest, as told from the declared members. */
  lemma SoundIffPadded(ms: seq<Member>)
    requires MembersOk(ms)
    ensures SoundStruct(ms) <==> Padded(ms, FRESH, Modulus(ms))
  {
    ModulusDivides(ms);
    assert PowerOfTwo(1);
    PaddedIffCovered(ms, FRESH, INIT, 0, Modulus(ms));
    LayoutIsSound(ms);
  }

  /** In `struct { int a : 4; int b : 20; int c; }` b passes the bytes reserved for a, but the padding before c covers
      it. */
  lemma PaddingCovers()
    ensures var ms := [Bits(4, 4), Bits(20, 4), Normal(4, 4)]; MembersOk(ms) && !Fit(ms, NO_GROUP) && SoundStruct(ms)
  {
    assert PowerOfTwo(4) && PowerOfTwo(2) && PowerOfTwo(1);
    PaddedExample();
    SoundIffPadded([Bits(4, 4), Bits(20, 4), Normal(4, 4)]);
  }

  lemma PaddedExample()
    ensures var ms := [Bits(4, 4), Bits(20, 4), Normal(4, 4)];
            MembersNormal(ms) && !Fit(ms, NO_GROUP) && Padded(ms, FRESH, Modulus(ms))
  {
    var ms, ms1, ms2 := [Bits(4, 4), Bits(20, 4), Normal(4, 4)], [Bits(20, 4), Normal(4, 4)], [Normal(4, 4)];
    assert ms[1..] == ms1 && ms1[1..] == ms2 && ms2[1..] == [];
    assert !Fit(ms1, Advance(NO_GROUP, ms[0]));
    assert Modulus([]) == 8 && Modulus(ms2) == 8 && Modulus(ms1) == 8;
    ExampleMoves();
    assert Padded([], Rest(0, 0, 0, 8, 4, false, 4), 8);
    assert Padded(ms2, Rest(1, 16, 24, 8, 4, false, 4), 8);
    assert Padded(ms1, Rest(1, 0, 4, 8, 4, false, 4), 8);
  }

  lemma ExampleMoves()
    ensures Clear(FRESH, Bits(4, 4), 8) && Moved(FRESH, Bits(4, 4), 8) == Rest(1, 0, 4, 8, 4, false, 4)
    ensures var r := Rest(1, 0, 4, 8, 4, false, 4);
            Clear(r, Bits(20, 4), 8) && Moved(r, Bits(20, 4), 8) == Rest(1, 16, 24, 8, 4, false, 4)
    ensures var r := Rest(1, 16, 24, 8, 4, false, 4);
            Clear(r, Normal(4, 4), 8) && Moved(r, Normal(4, 4), 8) == Rest(0, 0, 0, 8, 4, false, 4)
  {}
}
