/**
  Array initialisers with `[i] =` and `[i ... j] =` designators over scalar elements
  (src/cc1/decl_init.c: decl_init_brace_up_array2, range_store_add).
*/
module RangeInitSpec {
  import opened Common

  /** `[lo ... hi]`, where `hi` is `lo` if it is not written, and whether another designator follows. */
  datatype Desig = Desig(lo: int, hi: int, deeper: bool)

  /** One initialiser: its designator if any, and its value. */
  datatype Item = Item(desig: Option<Desig>, v: int)

  /** The array so far (None is a slot nothing has initialised) and the items left over. */
  datatype Outcome = Error | Done(slots: seq<Option<int>>, rest: seq<Item>)

  /** Where an item is written when the cursor is at `i`; None if the source dies on its designator. */
  function Span(item: Item, i: nat, limit: Option<nat>): Option<(nat, nat)> {
    match item.desig
    case None => Some((i, i))
    case Some(d) =>
      if d.lo < 0 || d.hi < 0 || (limit.Some? && (d.lo >= limit.value || d.hi >= limit.value)) || d.deeper then None
      else Some((d.lo, d.hi))
  }

  /** The last slot written: a range given backwards writes its first slot only. */
  function Top(span: (nat, nat)): nat {
    if span.0 < span.1 then span.1 else span.0
  }

  function Put(slots: seq<Option<int>>, span: (nat, nat), v: int): (r: seq<Option<int>>)
    ensures |r| == if Top(span) < |slots| then |slots| else Top(span) + 1
    ensures forall k :: 0 <= k < |r| ==>
      r[k] == if span.0 <= k <= Top(span) then Some(v) else if k < |slots| then slots[k] else None
  {
    seq(if Top(span) < |slots| then |slots| else Top(span) + 1,
        k requires 0 <= k => if span.0 <= k <= Top(span) then Some(v) else if k < |slots| then slots[k] else None)
  }

  predicate Full(item: Item, i: nat, limit: Option<nat>) {
    item.desig.None? && limit.Some? && i >= limit.value
  }

  /** The loop over the items, with the cursor at `i`. */
  function Fill(slots: seq<Option<int>>, i: nat, items: seq<Item>, limit: Option<nat>): Outcome
    decreases |items|
  {
    if items == [] || Full(items[0], i, limit) then Done(slots, items)
    else
      match Span(items[0], i, limit)
      case None => Error
      case Some(span) => Fill(Put(slots, span, items[0].v), span.1 + 1, items[1..], limit)
  }

  // ---- What a list says, from its own designators ----------------------------------------------------------

  /** The slot at which the item `m` begins: the one it names, or the one after the last of the item before it. */
  function First(items: seq<Item>, i: int, m: nat): int
    requires m < |items|
  {
    if items[m].desig.Some? then items[m].desig.value.lo
    else if m == 0 then i
    else if items[m - 1].desig.Some? then items[m - 1].desig.value.hi + 1
    else First(items, i, m - 1) + 1
  }

  /** The item `m` is for the slot `k`: a range for all from its lower to its upper end, and for the lower at least. */
  predicate IsFor(items: seq<Item>, i: int, m: nat, k: int)
    requires m < |items|
  {
    || k == First(items, i, m)
    || (items[m].desig.Some? && items[m].desig.value.lo <= k <= items[m].desig.value.hi)
  }

  /** The source dies on the item: an index is negative or beyond the array, or a designator follows that a scalar
      does not have. */
  predicate IsWrong(item: Item, limit: Option<nat>) {
    item.desig.Some? &&
    var d := item.desig.value;
    || d.lo < 0 || d.hi < 0 || d.deeper
    || (limit.Some? && (d.lo >= limit.value || d.hi >= limit.value))
  }

  /** The array is full when the turn comes to the item `m`, which names no slot. */
  predicate IsBeyond(items: seq<Item>, i: int, limit: Option<nat>, m: nat)
    requires m < |items|
  {
    items[m].desig.None? && limit.Some? && First(items, i, m) >= limit.value
  }

  /** The first `n` items are taken: none of them is wrong or comes too late. */
  ghost predicate AllTaken(items: seq<Item>, i: int, limit: Option<nat>, n: nat)
    requires n <= |items|
  {
    forall m :: 0 <= m < n ==> !IsWrong(items[m], limit) && !IsBeyond(items, i, limit, m)
  }

  /** The value of slot `k`, where slots outside the array are like slots not initialised. */
  function At(slots: seq<Option<int>>, k: nat): Option<int> {
    if k < |slots| then slots[k] else None
  }

  /** `x` is the value of the last of the first `n` items that is for the slot `k`, or `before` if none is. */
  ghost predicate IsLast(items: seq<Item>, i: int, n: nat, k: nat, before: Option<int>, x: Option<int>)
    requires n <= |items|
  {
    || (x == before && forall m :: 0 <= m < n ==> !IsFor(items, i, m, k))
    || exists m :: 0 <= m < n && LastFor(items, i, n, k, m) && x == Some(items[m].v)
  }

  ghost predicate LastFor(items: seq<Item>, i: int, n: nat, k: nat, m: nat)
    requires m < n <= |items|
  {
    IsFor(items, i, m, k) && forall l :: m < l < n ==> !IsFor(items, i, l, k)
  }

  ghost predicate IsForAny(items: seq<Item>, i: int, n: nat, k: int)
    requires n <= |items|
  {
    exists m :: 0 <= m < n && IsFor(items, i, m, k)
  }

  /** The array ends at the highest slot that an item is for, or where it ended before. */
  ghost predicate IsExtent(items: seq<Item>, i: int, n: nat, before: nat, size: nat)
    requires n <= |items|
  {
    before <= size && (forall k :: IsForAny(items, i, n, k) ==> k < size)
    && (size == before || IsForAny(items, i, n, size - 1))
  }

  /** The outcome of a list of items is what their designators say. */
  ghost predicate IsOutcome(slots: seq<Option<int>>, i: nat, items: seq<Item>, limit: Option<nat>, r: Outcome, n: nat) {
    && n <= |items| && AllTaken(items, i, limit, n)
    && match r
       case Error => n < |items| && IsWrong(items[n], limit)
       case Done(after, rest) =>
         && rest == items[n..] && (n < |items| ==> IsBeyond(items, i, limit, n))
         && (forall k :: 0 <= k ==> IsLast(items, i, n, k, At(slots, k), At(after, k)))
         && IsExtent(items, i, n, |slots|, |after|)
  }

  lemma {:induction false} FirstLater(items: seq<Item>, i: nat, limit: Option<nat>, m: nat)
    requires 0 < m < |items| && !Full(items[0], i, limit) && Span(items[0], i, limit).Some?
    ensures First(items, i, m) == First(items[1..], Span(items[0], i, limit).value.1 + 1, m - 1)
  {
    if items[m].desig.None? && m > 1 && items[m - 1].desig.None? { FirstLater(items, i, limit, m - 1); }
  }

  /** Whatever mix of positional items, designators and ranges is given, the outcome is what they say: each slot ends
      up with the value of the last item that is for it. */
  lemma {:induction false} LastWriteWins(slots: seq<Option<int>>, i: nat, items: seq<Item>, limit: Option<nat>)
    returns (n: nat)
    ensures IsOutcome(slots, i, items, limit, Fill(slots, i, items, limit), n)
    decreases |items|
  {
    n := 0;
    if items == [] || Full(items[0], i, limit) {
      assert items[0..] == items;
    } else if Span(items[0], i, limit).Some? {
      var span := Span(items[0], i, limit).value;
      var put := Put(slots, span, items[0].v);
      var n1 := LastWriteWins(put, span.1 + 1, items[1..], limit);
      n := n1 + 1;
      OutcomeLater(slots, i, items, limit, span, put, Fill(slots, i, items, limit), n1);
    }
  }

  lemma OutcomeLater(slots: seq<Option<int>>, i: nat, items: seq<Item>, limit: Option<nat>, span: (nat, nat),
                     put: seq<Option<int>>, r: Outcome, n1: nat)
    requires items != [] && !Full(items[0], i, limit) && Span(items[0], i, limit) == Some(span)
    requires put == Put(slots, span, items[0].v) && IsOutcome(put, span.1 + 1, items[1..], limit, r, n1)
    ensures IsOutcome(slots, i, items, limit, r, n1 + 1)
  {
    var n, more, j := n1 + 1, items[1..], span.1 + 1;
    forall m | 0 < m < |items| ensures First(items, i, m) == First(more, j, m - 1) { FirstLater(items, i, limit, m); }
    TakenLater(items, i, limit, n, j);
    if r.Done? {
      SlotsLater(slots, i, items, limit, span, put, r.slots, n, j);
      OneExtent(slots, i, items, limit, span);
      ExtentLater(items, i, n, j, |slots|, |put|, |r.slots|);
    }
  }

  lemma TakenLater(items: seq<Item>, i: int, limit: Option<nat>, n: nat, j: int)
    requires 0 < n <= |items| && !IsWrong(items[0], limit) && !IsBeyond(items, i, limit, 0)
    requires forall m :: 0 < m < |items| ==> First(items, i, m) == First(items[1..], j, m - 1)
    requires AllTaken(items[1..], j, limit, n - 1)
    ensures AllTaken(items, i, limit, n)
    ensures n < |items| ==> (IsBeyond(items, i, limit, n) <==> IsBeyond(items[1..], j, limit, n - 1))
  {
    var more := items[1..];
    forall m | 0 < m < n ensures !IsWrong(items[m], limit) && !IsBeyond(items, i, limit, m) {
      assert items[m] == more[m - 1] && !IsWrong(more[m - 1], limit) && !IsBeyond(more, j, limit, m - 1);
    }
  }

  lemma SlotsLater(slots: seq<Option<int>>, i: nat, items: seq<Item>, limit: Option<nat>, span: (nat, nat),
                   put: seq<Option<int>>, after: seq<Option<int>>, n: nat, j: int)
    requires items != [] && Span(items[0], i, limit) == Some(span) && put == Put(slots, span, items[0].v)
    requires 0 < n <= |items|
    requires forall m :: 0 < m < n ==> First(items, i, m) == First(items[1..], j, m - 1)
    requires forall k :: 0 <= k ==> IsLast(items[1..], j, n - 1, k, At(put, k), At(after, k))
    ensures forall k :: 0 <= k ==> IsLast(items, i, n, k, At(slots, k), At(after, k))
  {
    forall k | 0 <= k ensures IsLast(items, i, n, k, At(slots, k), At(after, k)) {
      assert IsLast(items[1..], j, n - 1, k, At(put, k), At(after, k));
      LastLater(items, i, n, j, k, At(slots, k), At(put, k), At(after, k));
    }
  }

  lemma LastLater(items: seq<Item>, i: int, n: nat, j: int, k: nat, before: Option<int>, put: Option<int>,
                  x: Option<int>)
    requires 0 < n <= |items| && IsLast(items[1..], j, n - 1, k, put, x)
    requires forall m :: 0 < m < n ==> First(items, i, m) == First(items[1..], j, m - 1)
    requires put == if IsFor(items, i, 0, k) then Some(items[0].v) else before
    ensures IsLast(items, i, n, k, before, x)
  {
    var more := items[1..];
    forall m | 0 < m < n ensures IsFor(items, i, m, k) == IsFor(more, j, m - 1, k) {
      assert items[m] == more[m - 1];
    }
    if m :| 0 <= m < n - 1 && LastFor(more, j, n - 1, k, m) && x == Some(more[m].v) {
      assert LastFor(items, i, n, k, m + 1);
    } else if IsFor(items, i, 0, k) {
      assert LastFor(items, i, n, k, 0);
    }
  }

  lemma OneExtent(slots: seq<Option<int>>, i: nat, items: seq<Item>, limit: Option<nat>, span: (nat, nat))
    requires items != [] && Span(items[0], i, limit) == Some(span)
    ensures IsExtent(items, i, 1, |slots|, |Put(slots, span, items[0].v)|)
  {
    assert IsFor(items, i, 0, Top(span));
  }

  lemma ExtentLater(items: seq<Item>, i: int, n: nat, j: int, before: nat, put: nat, size: nat)
    requires 0 < n <= |items| && IsExtent(items[1..], j, n - 1, put, size)
    requires forall m :: 0 < m < n ==> First(items, i, m) == First(items[1..], j, m - 1)
    requires IsExtent(items, i, 1, before, put)
    ensures IsExtent(items, i, n, before, size)
  {
    forall k ensures IsForAny(items, i, n, k) <==> IsForAny(items, i, 1, k) || IsForAny(items[1..], j, n - 1, k) {
      AnyLater(items, i, n, j, k);
    }
  }

  lemma AnyLater(items: seq<Item>, i: int, n: nat, j: int, k: int)
    requires 0 < n <= |items| && forall m :: 0 < m < n ==> First(items, i, m) == First(items[1..], j, m - 1)
    ensures IsForAny(items, i, n, k) <==> IsForAny(items, i, 1, k) || IsForAny(items[1..], j, n - 1, k)
  {
    var more := items[1..];
    forall m | 0 < m < n ensures IsFor(items, i, m, k) == IsFor(more, j, m - 1, k) {
      assert items[m] == more[m - 1];
    }
    if IsForAny(more, j, n - 1, k) {
      var m :| 0 <= m < n - 1 && IsFor(more, j, m, k);
      assert IsFor(items, i, m + 1, k);
    }
  }

  /** Inside the limit, the array never grows beyond it, whatever the designators. */
  lemma {:induction false} StaysInBounds(slots: seq<Option<int>>, i: nat, items: seq<Item>, n: nat)
    requires |slots| <= n
    ensures Fill(slots, i, items, Some(n)).Done? ==> |Fill(slots, i, items, Some(n)).slots| <= n
    decreases |items|
  {
    if items != [] && !Full(items[0], i, Some(n)) && Span(items[0], i, Some(n)).Some? {
      var span := Span(items[0], i, Some(n)).value;
      StaysInBounds(Put(slots, span, items[0].v), span.1 + 1, items[1..], n);
    }
  }
}

/** The loop as it runs: entries on the heap, ranges shared through a store that moves when it grows. */
module RangeInitCode {
  import opened Common
  import opened RangeInitSpec

  /** decl_init: a scalar initialiser, or a copy that points at a slot of the range store. */
  class Init {
    const isCopy: bool
    const val: int
    /** The source's `bits.range_copy`, a pointer into an array: the array and the offset in it. */
    var store: array?<Cpy>
    var idx: nat

    constructor Scalar(val: int)
      ensures !isCopy && this.val == val
    {
      isCopy, this.val, store, idx := false, val, null, 0;
    }

    constructor Copy(store: array<Cpy>, idx: nat)
      ensures isCopy && this.store == store && this.idx == idx
    {
      isCopy, val, this.store, this.idx := true, 0, store, idx;
    }
  }

  /** struct init_cpy */
  class Cpy {
    const rangeInit: Init

    constructor (rangeInit: Init)
      ensures this.rangeInit == rangeInit
    {
      this.rangeInit := rangeInit;
    }
  }

  /** The copy entries among `refs`. */
  ghost function Copies(refs: seq<Init?>): set<Init> {
    set e: Init | e in refs && e.isCopy
  }

  /** A copy entry points at a slot of `store` that holds a scalar. */
  ghost predicate Points(e: Init, store: array<Cpy>)
    reads e, store
  {
    e.store == store && e.idx < store.Length && !store[e.idx].rangeInit.isCopy
  }

  /** What an entry stands for: a copy is read through the store. */
  ghost function Value(e: Init?, store: array<Cpy>): Option<int>
    reads if e != null && e.isCopy then {e} else {}, store
  {
    if e == null then None
    else if !e.isCopy then Some(e.val)
    else if e.idx < store.Length then Some(store[e.idx].rangeInit.val) else None
  }

  /** Every copy in `current` points into the store, and the entries stand for `slots`. */
  ghost predicate Stands(current: seq<Init?>, store: array<Cpy>, slots: seq<Option<int>>)
    reads Copies(current), store
  {
    && (forall e :: e in Copies(current) ==> Points(e, store))
    && |slots| == |current|
    && (forall k :: 0 <= k < |current| ==> StandsAt(current, store, slots, k))
  }

  ghost predicate StandsAt(current: seq<Init?>, store: array<Cpy>, slots: seq<Option<int>>, k: nat)
    requires k < |current| == |slots|
    reads Copies(current), store
  {
    Value(current[k], store) == slots[k]
  }

  /** dynarray_padinsert: replace the entry at `i`, or pad with nulls up to it and add it. */
  method PadInsert(current: seq<Init?>, i: nat, ins: Init) returns (r: seq<Init?>)
    ensures |r| == if i < |current| then |current| else i + 1
    ensures forall k :: 0 <= k < |r| ==> r[k] == if k == i then ins else if k < |current| then current[k] else null
  {
    if i < |current| {
      r := current[i := ins];
    } else {
      r := current;
      var j := i - |current|;
      while j > 0
        invariant 0 <= j && |r| + j == i
        invariant forall k :: 0 <= k < |r| ==> r[k] == if k < |current| then current[k] else null
      {
        r := r + [null];
        j := j - 1;
      }
      r := r + [ins];
    }
  }

  /** range_store_add: the store moves when it grows, so the offsets of the copies that point into it are
      taken before, and the copies are pointed at the same offsets of the new store after. */
  method RangeStoreAdd(store: array<Cpy>, entry: Cpy, refs: seq<Init?>) returns (grown: array<Cpy>)
    requires forall e :: e in Copies(refs) ==> Points(e, store)
    modifies Copies(refs)
    ensures fresh(grown) && grown[..] == old(store[..]) + [entry]
    ensures forall e :: e in Copies(refs) ==> e.store == grown && e.idx == old(e.idx)
  {
    var offsets := TakeOffsets(refs);
    grown := new Cpy[store.Length + 1](k requires 0 <= k <= store.Length reads store =>
      if k < store.Length then store[k] else entry);
    assert grown[..] == store[..] + [entry];
    Relocate(refs, grown, offsets);
  }

  /** `offsets` lists the offsets of the copies among the first `n` entries, in order. */
  ghost predicate AreOffsets(offsets: seq<nat>, refs: seq<Init?>, n: nat)
    requires n <= |refs|
    reads Copies(refs)
  {
    forall k :: 0 <= k < n ==> OffsetAt(offsets, refs, k)
  }

  ghost predicate OffsetAt(offsets: seq<nat>, refs: seq<Init?>, k: nat)
    requires k < |refs|
    reads if refs[k] != null && refs[k].isCopy then {refs[k]} else {}
  {
    refs[k] != null && refs[k].isCopy ==>
      CopiesBefore(refs, k) < |offsets| && offsets[CopiesBefore(refs, k)] == refs[k].idx
  }

  method TakeOffsets(refs: seq<Init?>) returns (offsets: seq<nat>)
    ensures AreOffsets(offsets, refs, |refs|)
  {
    offsets := [];
    var i := 0;
    while i < |refs|
      invariant i <= |refs| && |offsets| == CopiesBefore(refs, i)
      invariant AreOffsets(offsets, refs, i)
    {
      ghost var before := offsets;
      var ent := refs[i];
      if ent != null && ent.isCopy { offsets := offsets + [ent.idx]; }
      forall k | 0 <= k < i ensures OffsetAt(offsets, refs, k) {
        assert OffsetAt(before, refs, k);
      }
      i := i + 1;
    }
  }

  method Relocate(refs: seq<Init?>, grown: array<Cpy>, offsets: seq<nat>)
    requires AreOffsets(offsets, refs, |refs|)
    modifies Copies(refs)
    ensures forall e :: e in Copies(refs) ==> e.store == grown && e.idx == old(e.idx)
  {
    var i := 0;
    var off := 0;
    while i < |refs|
      invariant i <= |refs| && off == CopiesBefore(refs, i)
      invariant forall e :: e in Copies(refs) ==> e.idx == old(e.idx)
      invariant forall k :: 0 <= k < i && refs[k] != null && refs[k].isCopy ==> refs[k].store == grown
    {
      var ent := refs[i];
      if ent != null && ent.isCopy {
        assert ent in Copies(refs) && old(OffsetAt(offsets, refs, i));
        ent.store, ent.idx := grown, offsets[off];
        off := off + 1;
      }
      i := i + 1;
    }
  }

  /** The number of copies among the first `n` entries. */
  ghost function CopiesBefore(refs: seq<Init?>, n: nat): (r: nat)
    requires n <= |refs|
    ensures r <= n
  {
    if n == 0 then 0
    else CopiesBefore(refs, n - 1) + if refs[n - 1] != null && refs[n - 1].isCopy then 1 else 0
  }

  /** decl_init_brace_up_array2 for scalar elements. */
  method BraceUpArray2(init: seq<Init?>, store0: array<Cpy>, items: seq<Item>, limit: Option<nat>,
      ghost slots0: seq<Option<int>>)
    returns (ok: bool, current: seq<Init?>, store: array<Cpy>, pos: seq<Item>)
    requires Stands(init, store0, slots0)
    modifies Copies(init)
    ensures match Fill(slots0, 0, items, limit)
            case Error => !ok
            case Done(slots, rest) =>
              && ok && pos == rest && Stands(current, store, slots) && |slots| == |current|
              && forall k :: 0 <= k < |current| ==>
                   if current[k] == null then slots[k] == None
                   else if !current[k].isCopy then slots[k] == Some(current[k].val)
                   else
                     && current[k].store == store && current[k].idx < store.Length
                     && slots[k] == Some(store[current[k].idx].rangeInit.val)
  {
    ok, current, store, pos := true, init, store0, items;
    var i: nat := 0;
    ghost var slots := slots0;
    while pos != []
      invariant Stands(current, store, slots)
      invariant forall e :: e in Copies(current) ==> e in Copies(init) || fresh(e)
      invariant Fill(slots0, 0, items, limit) == Fill(slots, i, pos, limit)
      decreases |pos|
    {
      var this_ := pos[0];
      if this_.desig.None? && limit.Some? && i >= limit.value { break; }
      var found, lo, hi := Designate(this_, i, limit);
      if !found { return false, current, store, pos; }
      pos := pos[1..];
      current, store := PutItem(current, store, this_.v, lo, hi, slots);
      slots := Put(slots, (lo, hi), this_.v);
      i := hi + 1;
    }
    EntriesStand(current, store, slots);
  }

  /** One entry at a time: nothing, a scalar, or what a copy refers to. */
  ghost predicate EntryStands(e: Init?, store: array<Cpy>, slot: Option<int>)
    reads e, store
  {
    if e == null then slot == None
    else if !e.isCopy then slot == Some(e.val)
    else e.store == store && e.idx < store.Length && slot == Some(store[e.idx].rangeInit.val)
  }

  lemma EntriesStand(current: seq<Init?>, store: array<Cpy>, slots: seq<Option<int>>)
    requires Stands(current, store, slots)
    ensures forall k :: 0 <= k < |current| ==> EntryStands(current[k], store, slots[k])
  {
    forall k | 0 <= k < |current| ensures EntryStands(current[k], store, slots[k]) {
      assert StandsAt(current, store, slots, k);
      if current[k] != null && current[k].isCopy { assert current[k] in Copies(current); }
    }
  }

  /** The designator of an item: the slots it names, or a fatal error. */
  method Designate(item: Item, i: nat, limit: Option<nat>) returns (ok: bool, lo: nat, hi: nat)
    ensures Span(item, i, limit) == if ok then Some((lo, hi)) else None
    ensures ok <==> !IsWrong(item, limit)
    ensures ok ==> if item.desig.Some? then lo == item.desig.value.lo && hi == item.desig.value.hi else lo == hi == i
  {
    ok, lo, hi := true, i, i;
    if item.desig.Some? {
      var Desig(k0, k1, deeper) := item.desig.value;
      if k0 < 0 || k1 < 0 { return false, i, i; }
      if limit.Some? && (k0 >= limit.value || k1 >= limit.value) { return false, i, i; }
      ok, lo, hi := !deeper, k0, k1;
    }
  }

  /** The body of the loop once the slots are known. */
  method PutItem(current0: seq<Init?>, store0: array<Cpy>, v: int, i: nat, j: nat, ghost slots: seq<Option<int>>)
    returns (current: seq<Init?>, store: array<Cpy>)
    requires Stands(current0, store0, slots)
    modifies Copies(current0)
    ensures Stands(current, store, Put(slots, (i, j), v))
    ensures forall e :: e in Copies(current) ==> e in Copies(current0) || fresh(e)
  {
    var braced := new Init.Scalar(v);
    store := store0;
    current := PadInsert(current0, i, braced);
    ghost var one := Put(slots, (i, i), v);
    Inserted(current0, current, store, slots, one, i, braced);
    if i < j {
      current, store := AddRange(current, store, braced, i, j, one);
      assert Put(slots, (i, j), v) == Put(one, (i, j), v);
    } else {
      assert Put(slots, (i, j), v) == one;
    }
  }

  /** An entry put at `i` stands for the value written there, and the others for what they did. */
  lemma Inserted(prior: seq<Init?>, current: seq<Init?>, store: array<Cpy>, before: seq<Option<int>>,
                 slots: seq<Option<int>>, i: nat, ins: Init)
    requires Stands(prior, store, before)
    requires |current| == if i < |prior| then |prior| else i + 1
    requires forall k :: 0 <= k < |current| ==> current[k] == if k == i then ins else if k < |prior| then
              prior[k] else null
    requires ins.isCopy ==> Points(ins, store)
    requires |slots| == |current| && Value(ins, store) == slots[i]
    requires forall k :: 0 <= k < |slots| && k != i ==> slots[k] == if k < |before| then before[k] else None
    ensures Stands(current, store, slots)
    ensures forall e :: e in Copies(current) ==> e in Copies(prior) || e == ins
  {
    forall e | e in Copies(current) ensures e in Copies(prior) || e == ins {
      var k :| 0 <= k < |current| && current[k] == e;
    }
    forall k | 0 <= k < |current| ensures StandsAt(current, store, slots, k) {
      if k != i && k < |prior| { assert StandsAt(prior, store, before, k); }
    }
  }

  /** The stored value of a range, in a store that all earlier copies refer to. */
  method StoreCopy(current: seq<Init?>, store0: array<Cpy>, braced: Init, ghost slots: seq<Option<int>>)
    returns (cpy: Cpy, store: array<Cpy>)
    requires Stands(current, store0, slots) && !braced.isCopy
    modifies Copies(current)
    ensures cpy.rangeInit == braced
    ensures Stands(current, store, slots) && store.Length == store0.Length + 1 && store[store0.Length] == cpy
  {
    cpy := new Cpy(braced);
    store := RangeStoreAdd(store0, cpy, current);
    assert store[store0.Length] == cpy && forall k :: 0 <= k < store0.Length ==>
        store[k] == store[..][k] == old(store0[k]);
    forall k | 0 <= k < |current| ensures StandsAt(current, store, slots, k) {
      assert old(StandsAt(current, store0, slots, k));
      if current[k] != null && current[k].isCopy { assert current[k] in Copies(current); }
    }
  }

  /** The second half of the loop body: keep the value once in the store and fill `i` to `j` with copies of it. */
  method AddRange(current0: seq<Init?>, store0: array<Cpy>, braced: Init, i: nat, j: nat, ghost slots: seq<Option<int>>)
    returns (current: seq<Init?>, store: array<Cpy>)
    requires Stands(current0, store0, slots)
    requires !braced.isCopy && i < j && i < |current0|
    requires slots[i] == Some(braced.val)
    modifies Copies(current0)
    ensures Stands(current, store, Put(slots, (i, j), braced.val))
    ensures forall e :: e in Copies(current) ==> e in Copies(current0) || fresh(e)
  {
    var copyIdx := store0.Length;
    var cpy;
    cpy, store := StoreCopy(current0, store0, braced, slots);
    current := current0;
    var at := i;
    ghost var now := slots;
    while at <= j
      invariant i <= at <= j + 1
      invariant now == if at == i then slots else Put(slots, (i, at - 1), braced.val)
      invariant Stands(current, store, now)
      invariant store.Length == copyIdx + 1 && store[copyIdx] == cpy
      invariant forall e :: e in Copies(current) ==> e in Copies(current0) || fresh(e)
    {
      var e := new Init.Copy(store, copyIdx);
      ghost var prior, before := current, now;
      current := PadInsert(current, at, e);
      now := Put(slots, (i, at), braced.val);
      Inserted(prior, current, store, before, now, at, e);
      at := at + 1;
    }
  }
}
