/**
  Rounding up to an alignment (src/cc1/pack.c): the mask form that is compiled, the modulo form beside it,
  and where the two agree.
*/
module Packing {
  import opened Arithmetic

  /** `-align` of an unsigned int, as the wider type of the other operand sees it. */
  function Negated(align: nat): nat
    requires 0 < align < TWO32
  {
    TWO32 - align
  }

  /** pack_to_align as compiled */
  function MaskForm(sz: nat, align: nat): nat
    requires 0 < align < TWO32
  {
    BitAnd(sz + align - 1, Negated(align))
  }

  /** pack_to_align under SLOW */
  function RoundUp(sz: nat, align: nat): nat
    requires align > 0
  {
    if sz % align != 0 then sz + (align - sz % align) else sz
  }

  /** The least multiple of `align` that is not below `sz`. */
  ghost predicate LeastMultiple(r: nat, sz: nat, align: nat)
    requires align > 0
  {
    && r % align == 0 && sz <= r
    && forall k: nat :: k >= sz && k % align == 0 ==> r <= k
  }

  lemma RoundUpFacts(sz: nat, align: nat)
    requires align > 0
    ensures RoundUp(sz, align) % align == 0
    ensures sz <= RoundUp(sz, align) < sz + align
  {
    if sz % align != 0 {
      DivModUnique(sz + (align - sz % align), align, sz / align + 1, 0);
    }
  }

  /** The modulo form is the least multiple of the alignment that is not below the size. */
  lemma RoundUpIsLeast(sz: nat, align: nat)
    requires align > 0
    ensures LeastMultiple(RoundUp(sz, align), sz, align)
  {
    RoundUpFacts(sz, align);
    forall k: nat | k >= sz && k % align == 0 ensures RoundUp(sz, align) <= k {
      if k < RoundUp(sz, align) {
        SubMultiple(RoundUp(sz, align), k, align);
      }
    }
  }

  /** What the mask form computes for every power of two: the modulo form without its bits from 2^32 up.
      So the two agree exactly where the result still fits an unsigned int, although the type is wider. */
  lemma MaskFormIsRoundUp(sz: nat, align: nat)
    requires PowerOfTwo(align) && align < TWO32
    ensures MaskForm(sz, align) == RoundUp(sz, align) % TWO32
    ensures MaskForm(sz, align) == RoundUp(sz, align) <==> RoundUp(sz, align) < TWO32
  {
    var r := RoundUp(sz, align);
    var top := TWO32;
    Two32IsPower();
    MaskClears(sz, align, top);
    MaskFormIs(sz, align, top, r % top);
    FitsBlock(r, top);
  }

  lemma MaskFormIs(sz: nat, align: nat, top: nat, r: nat)
    requires 0 < align < TWO32 && top == TWO32 && BitAnd(sz + align - 1, top - align) == r
    ensures MaskForm(sz, align) == r
  {}

  lemma MaskClears(sz: nat, align: nat, top: nat)
    requires PowerOfTwo(align) && PowerOfTwo(top) && align <= top
    ensures BitAnd(sz + align - 1, top - align) == RoundUp(sz, align) % top
  {
    var x := sz + align - 1;
    AndHighOnes(x, align, top);
    SmallerPowerDivides(align, top);
    RoundUpClears(sz, align);
    LowerBlock(x, align, top);
  }

  lemma FitsBlock(x: nat, b: nat)
    requires b > 0
    ensures x % b == x <==> x < b
  {
    ModAtMost(x, b);
  }

  lemma RoundUpClears(sz: nat, align: nat)
    requires align > 0
    ensures RoundUp(sz, align) == (sz + align - 1) - (sz + align - 1) % align
  {
    var x, r := sz + align - 1, RoundUp(sz, align);
    RoundUpFacts(sz, align);
    SubMultiple(x, r, align);
    DivModUnique(x - r, align, 0, x - r);
  }

  /** The bits above are lost: 4 GiB rounds up to nothing. */
  lemma MaskFormWraps()
    ensures MaskForm(TWO32, 8) == 0 && RoundUp(TWO32, 8) == TWO32
  {
    assert PowerOfTwo(2) && PowerOfTwo(4) && PowerOfTwo(8);
    MaskFormIsRoundUp(TWO32, 8);
  }

  method PackToAlign(sz: nat, align: nat) returns (r: nat)
    requires PowerOfTwo(align) && align < TWO32
    ensures r == RoundUp(sz, align) % TWO32
    ensures RoundUp(sz, align) < TWO32 ==> LeastMultiple(r, sz, align)
  {
    r := BitAnd(sz + align - 1, Negated(align));
    MaskFormIsRoundUp(sz, align);
    RoundUpIsLeast(sz, align);
  }

  /** Returns the offset after the object and the object's own. */
  method PackNext(offset: nat, sz: nat, align: nat) returns (end: nat, afterSpace: nat)
    requires PowerOfTwo(align) && align < TWO32
    ensures afterSpace == RoundUp(offset, align) % TWO32 && end == afterSpace + sz
  {
    afterSpace := PackToAlign(offset, align);
    end := afterSpace + sz;
  }
}
