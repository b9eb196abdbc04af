/** Folding a structure or union: the loop of fold_sue over its members' declarations. */
module StructFold {
  import opened Arithmetic
  import opened Packing
  import opened StructLayout

  /** A member's declaration: struct_offset and struct_offset_bitfield are filled in. */
  class Decl {
    const m: Member
    var structOffset: nat
    var bitOffset: nat

    constructor (m: Member)
      ensures this.m == m && structOffset == 0 && bitOffset == 0
    {
      this.m := m;
      structOffset, bitOffset := 0, 0;
    }
  }

  function MembersOf(ds: seq<Decl>): (ms: seq<Member>)
    ensures |ms| == |ds| && forall i :: 0 <= i < |ds| ==> ms[i] == ds[i].m
  {
    if ds == [] then [] else [ds[0].m] + MembersOf(ds[1..])
  }

  predicate PlacedAt(d: Decl, p: Place)
    reads d
  {
    d.structOffset == p.byte && d.bitOffset == p.bit
  }

  /** What is still to come after `i` members, from state `st`. */
  ghost predicate Ahead(ms: seq<Member>, ps: seq<Place>, i: nat, st: State, union: bool, end: State)
    requires MembersOk(ms) && |ps| == |ms| && i <= |ms|
  {
    Final(ms[i..], st, union) == end && ps[i..] == Places(ms[i..], st, union)
  }

  lemma AheadStep(ms: seq<Member>, ps: seq<Place>, i: nat, st: State, union: bool, end: State)
    requires MembersOk(ms) && |ps| == |ms| && i < |ms| && Ahead(ms, ps, i, st, union, end)
    ensures MemberOk(ms[i]) && ps[i] == At(st, ms[i], union)
    ensures Ahead(ms, ps, i + 1, Step(st, ms[i], union), union, end)
    ensures Step(st, ms[i], union).offset <= end.offset
  {
    assert ms[i..][0] == ms[i] && ms[i..][1..] == ms[i + 1..];
    assert ps[i..][0] == ps[i] && ps[i..][1..] == ps[i + 1..];
    OffsetOnlyGrows(ms[i + 1..], Step(st, ms[i], union), union);
  }

  lemma {:induction false} OffsetOnlyGrows(ms: seq<Member>, st: State, union: bool)
    requires MembersOk(ms)
    ensures st.offset <= Final(ms, st, union).offset
  {
    if ms != [] {
      StepGrows(st, ms[0], union);
      OffsetOnlyGrows(ms[1..], Step(st, ms[0], union), union);
    }
  }

  /** Whether a bit-field begins a group. */
  predicate Starts(st: State, m: Member) {
    m.Bits? && m.width > 0 && !Continues(st, m)
  }

  lemma StepGrows(st: State, m: Member, union: bool)
    requires MemberOk(m)
    ensures st.offset <= Step(st, m, union).offset
    ensures Starts(st, m) || (m.Normal? && !union) ==> At(st, m, union).byte <= Step(st, m, union).offset
  {
    if st.master > 0 { RoundUpFacts(st.offset, st.master); }
    if m.Normal? {
      RoundUpFacts(st.offset, m.align);
    } else if m.width > 0 {
      RoundUpFacts(OpenOffset(st), Storage(m.width));
      RoundUpFacts(At(st, m, union).byte + Storage(m.width), m.unit);
    }
  }

  class Folder {
    var offset: nat
    var realignNext: bool
    /** struct bitfield_state */
    var currentOff: nat
    var firstOff: nat
    var currentLimit: nat
    var masterSize: nat
    var alignMax: nat
    var sizeMax: nat
    const union: bool

    constructor (union: bool)
      ensures Now() == INIT && this.union == union
    {
      this.union := union;
      offset, realignNext, currentOff, firstOff, currentLimit, masterSize := 0, false, 0, 0, 0, 0;
      alignMax, sizeMax := 1, 0;
    }

    function Now(): State
      reads this
    {
      State(offset, currentOff, firstOff, currentLimit, masterSize, realignNext, alignMax, sizeMax)
    }

    method StructPack(d: Decl, sz: nat, align: nat)
      requires PowerOfTwo(align) && align < TWO32
      modifies this`offset, d`structOffset
      ensures d.structOffset == RoundUp(old(offset), align) % TWO32 && offset == d.structOffset + sz
      ensures RoundUp(old(offset), align) < TWO32 ==> d.structOffset == RoundUp(old(offset), align)
    {
      var afterSpace;
      offset, afterSpace := PackNext(offset, sz, align);
      FitsBlock(RoundUp(old(offset), align), TWO32);
      d.structOffset := afterSpace;
    }

    method FinishBitfield()
      modifies this`offset
      ensures offset == FinishGroup(old(offset), masterSize)
    {
      if masterSize > 0 && offset % masterSize != 0 {
        offset := offset + (masterSize - offset % masterSize);
      }
    }

    /** The branch of fold_sue_calc_fieldwidth that begins a new group. */
    method StartGroup(d: Decl) returns (sz: nat, align: nat)
      requires MemberOk(d.m) && d.m.Bits? && d.m.width > 0 && !Continues(Now(), d.m)
      modifies this`offset, this`realignNext, this`currentOff, this`firstOff, this`currentLimit, this`masterSize,
          d`structOffset
      ensures sz == Storage(d.m.width) && align == d.m.unit
      ensures !realignNext && currentOff == 0 && currentLimit == 8 * d.m.unit && masterSize == d.m.unit
      ensures firstOff == d.structOffset && offset == d.structOffset + sz
      ensures At(old(Now()), d.m, union).byte < TWO32 ==> d.structOffset == At(old(Now()), d.m, union).byte
    {
      if realignNext || currentOff != 0 {
        realignNext, currentOff := false, 0;
        FinishBitfield();
      }
      masterSize, currentLimit := d.m.unit, 8 * d.m.unit;
      sz := Storage(d.m.width);
      assert PowerOfTwo(1) && PowerOfTwo(2) && PowerOfTwo(4) && PowerOfTwo(8);
      StructPack(d, sz, sz);
      firstOff := d.structOffset;
      align := d.m.unit;
    }

    /** fold_sue_calc_fieldwidth: the state and the place of a bit-field, as long as offsets fit. Returns the
        size and the alignment that count for the whole. */
    method CalcFieldwidth(d: Decl) returns (sz: nat, align: nat)
      requires MemberOk(d.m) && d.m.Bits?
      modifies this`offset, this`realignNext, this`currentOff, this`firstOff, this`currentLimit, this`masterSize, d
      ensures align in {0, 1, 2, 4, 8}
      ensures !Starts(old(Now()), d.m) || At(old(Now()), d.m, union).byte < TWO32 ==>
                && Now().(alignMax := Max(alignMax, align), sizeMax := Max(sizeMax, sz)) == Step(old(Now()), d.m, union)
                && PlacedAt(d, At(old(Now()), d.m, union))
    {
      ghost var st := Now();
      var bits := d.m.width;
      sz, align := 0, 0;
      if bits == 0 {
        realignNext := true;
        d.structOffset := offset;
      } else if realignNext || currentOff == 0 || currentOff + bits > currentLimit {
        sz, align := StartGroup(d);
      } else {
        d.structOffset := firstOff;
      }
      d.bitOffset := currentOff;
      currentOff := currentOff + bits;
      if currentOff == currentLimit {
        currentOff := 0;
        FinishBitfield();
      }
    }

    method ApplyNormalOffset(d: Decl)
      requires MemberOk(d.m) && d.m.Normal?
      modifies this`offset, this`currentOff, d
      ensures RoundUp(old(offset), d.m.align) < TWO32 ==> d.structOffset == RoundUp(old(offset), d.m.align)
      ensures offset == d.structOffset + d.m.size && currentOff == 0 && d.bitOffset == old(d.bitOffset)
    {
      currentOff := 0;
      StructPack(d, d.m.size, d.m.align);
    }

    /** One member. */
    method FoldMember(d: Decl)
      requires MemberOk(d.m) && PowerOfTwo(alignMax) && alignMax < TWO32 && d.structOffset == 0 && d.bitOffset == 0
      modifies this, d
      ensures PowerOfTwo(alignMax) && alignMax < TWO32
      ensures Step(old(Now()), d.m, union).offset < TWO32 ==>
                Now() == Step(old(Now()), d.m, union) && PlacedAt(d, At(old(Now()), d.m, union))
    {
      var sz, align;
      StepGrows(Now(), d.m, union);
      assert PowerOfTwo(1) && PowerOfTwo(2) && PowerOfTwo(4) && PowerOfTwo(8);
      if d.m.Bits? {
        sz, align := CalcFieldwidth(d);
      } else {
        sz, align := d.m.size, d.m.align;
        if !union { ApplyNormalOffset(d); }
      }
      if align > alignMax { alignMax := align; }
      if sz > sizeMax { sizeMax := sz; }
    }

    /** fold_sue: every member gets the offsets, and the whole the size and the alignment, of the layout, as
        long as they fit. */
    method FoldSue(ds: seq<Decl>) returns (size: nat, align: nat)
      requires Now() == INIT && MembersOk(MembersOf(ds))
      requires forall i, j :: 0 <= i < j < |ds| ==> ds[i] != ds[j]
      requires forall i :: 0 <= i < |ds| ==> ds[i].structOffset == 0 && ds[i].bitOffset == 0
      modifies this, ds
      ensures var end := Final(MembersOf(ds), INIT, union);
              && end.alignMax > 0
              && (end.offset < TWO32 && Size(end, union) < TWO32 ==>
                  && size == Size(end, union) && align == end.alignMax
                  && var ps := Places(MembersOf(ds), INIT, union);
                     forall i :: 0 <= i < |ds| ==> ds[i].structOffset == ps[i].byte && ds[i].bitOffset == ps[i].bit)
    {
      ghost var ms := MembersOf(ds);
      ghost var end, ps := Final(ms, INIT, union), Places(ms, INIT, union);
      AlignsStay(ms, INIT, union);
      assert ms[0..] == ms && ps[0..] == ps;
      var i := 0;
      while i < |ds|
        invariant 0 <= i <= |ds| && PowerOfTwo(alignMax) && alignMax < TWO32
        invariant forall j :: i <= j < |ds| ==> ds[j].structOffset == 0 && ds[j].bitOffset == 0
        invariant end.offset < TWO32 ==> Ahead(ms, ps, i, Now(), union, end)
        invariant end.offset < TWO32 ==> forall j :: 0 <= j < i ==> PlacedAt(ds[j], ps[j])
      {
        if end.offset < TWO32 { AheadStep(ms, ps, i, Now(), union, end); }
        FoldMember(ds[i]);
        i := i + 1;
      }
      assert ms[i..] == [];
      size, align := Finish();
    }

    /** The size is rounded when it is computed, and again as the record's. */
    method Finish() returns (size: nat, align: nat)
      requires PowerOfTwo(alignMax) && alignMax < TWO32
      ensures align == alignMax
      ensures Size(Now(), union) < TWO32 ==> size == Size(Now(), union)
    {
      align := alignMax;
      size := PackToAlign(if union then sizeMax else offset, align);
      FitsBlock(Size(Now(), union), TWO32);
      RoundUpFacts(if union then sizeMax else offset, align);
      size := PackToAlign(size, align);
      FitsBlock(Size(Now(), union), TWO32);
    }
  }
}
