/** Lists with designators and braces, against an independent reading: scalars in the order of their addresses, and a
    cursor that each designator moves (section 6.7.9 of ISO C11). */
module DesigOrder {
  import opened Common
  import opened InitSyntax
  import opened InitOrder
  import opened DesigSyntax
  import opened DesigScalars
  import opened DesigBraces

  /** The part of an object from the scalar at `c` on: the outermost that starts there. */
  function Outer(t: Type, c: nat): Type
    requires !t.Scalar?
    decreases t
  {
    var j := Child(t, c, 0);
    if j == Count(t) then Scalar
    else if c == Before(t, j) || Sub(t, j).Scalar? then Sub(t, j)
    else Outer(Sub(t, j), c - Before(t, j))
  }

  /** The sub-object, from the one at `i` on, that the scalar at `c` is part of. */
  function Child(t: Type, c: nat, i: nat): (j: nat)
    requires !t.Scalar? && i <= Count(t) && Before(t, i) <= c
    ensures i <= j <= Count(t) && Before(t, j) <= c
    decreases Count(t) - i
  {
    if i == Count(t) || c < Before(t, i + 1) then i else Child(t, c, i + 1)
  }

  /** `s` with `own` in place from `at` on. */
  function Over(s: seq<int>, at: nat, own: seq<int>): (r: seq<int>)
    ensures |r| == |s| && (at + |own| <= |s| ==> Overwrites(s, at, own, r))
  {
    if at + |own| <= |s| then s[..at] + own + s[at + |own|..] else s
  }

  /** What an item does: it puts scalars in place and moves the cursor, or is in error. */
  datatype Change = NoChange | Change(at: nat, own: seq<int>, next: nat)

  datatype Reading = Wrong | Reading(s: seq<int>, taken: nat)

  /** Whether the designators before an item are in order. The source does not look at those that follow where an
      empty list is met. */
  predicate PathOk(t: Type, p: seq<Desig>, item: Item, inC: bool)
    requires !t.Scalar? && p != []
  {
    if !inC && item == Braced([]) then Matches(t, p[0]) && (Sub(t, p[0].i).Scalar? ==> |p| == 1) else Valid(t, p)
  }

  /** An item with the designators `p`, or at the cursor if it has none: an expression is for the scalar there, and
      a list for what is designated or for the outermost part that starts there. In C an item ends where what it is
      for ends. In the source a list behind designators ends where what the first of them names ends, and an
      empty one clears all of that. */
  function Effect(t: Type, cursor: nat, p: seq<Desig>, item: Item, inC: bool): Change
    requires !t.Scalar?
    decreases item, 0
  {
    if p != [] && !PathOk(t, p, item, inC) then NoChange
    else
      match item
      case Single(v) => var at := if p != [] then Offset(t, p) else cursor; Change(at, [v], at + 1)
      case Braced(list) =>
        if p == [] then
          var own := ListValue(Outer(t, cursor), list, inC);
          if own.None? then NoChange else Change(cursor, own.value, cursor + |own.value|)
        else if !inC && list == [] then
          Change(Before(t, p[0].i), Zeros(ScalarCount(Sub(t, p[0].i))), Before(t, p[0].i + 1))
        else
          var own := ListValue(Designated(t, p), list, inC);
          if own.None? then NoChange
          else Change(Offset(t, p), own.value, if inC then Offset(t, p) + |own.value| else Before(t, p[0].i + 1))
  }

  /** The scalars of an object initialised by a list in braces. */
  function ListValue(t: Type, list: seq<Entry>, inC: bool): (r: Option<seq<int>>)
    ensures r.Some? ==> |r.value| == ScalarCount(t)
    decreases list, 2
  {
    if list == [] then Some(Zeros(ScalarCount(t)))
    else if t.Scalar? then
      if list[0].desig != [] then None
      else
        match list[0].item
        case Single(v) => Some([v])
        case Braced(inner) => ListValue(Scalar, inner, inC)
    else
      var r := Read(t, Zeros(ScalarCount(t)), 0, list[0].desig, list, inC);
      if r.Wrong? then None else Some(r.s)
  }

  /** The scalars `s` of an object after a list of items, the first of which has the designators `p`, and how many
      items are taken until the cursor has passed the end. */
  function Read(t: Type, s: seq<int>, cursor: nat, p: seq<Desig>, es: seq<Entry>, inC: bool): (r: Reading)
    requires !t.Scalar?
    ensures r.Reading? ==> |r.s| == |s| && r.taken <= |es|
    decreases es, 1
  {
    if es == [] || (p == [] && cursor >= |s|) then Reading(s, 0)
    else
      match Effect(t, cursor, p, es[0].item, inC)
      case NoChange => Wrong
      case Change(at, own, next) => Plus(1, Read(t, Over(s, at, own), next, DesigAt(es, 1), es[1..], inC))
  }

  function Plus(k: nat, r: Reading): Reading {
    if r.Wrong? then Wrong else Reading(r.s, k + r.taken)
  }

  // ---- The parts of an object ------------------------------------------------------------------------------

  lemma {:induction false} BeforeGrows(t: Type, i: nat, k: nat)
    requires !t.Scalar? && i <= k <= Count(t)
    ensures Before(t, i) <= Before(t, k)
    decreases k
  {
    if i < k { BeforeGrows(t, i, k - 1); }
  }

  lemma PartNonEmpty(t: Type, j: nat)
    requires !t.Scalar? && j < Count(t) && NonEmpty(t)
    ensures Before(t, j) < Before(t, j + 1) == Before(t, j) + ScalarCount(Sub(t, j)) <= ScalarCount(t)
  {
    OffsetInside(Sub(t, j), []);
    Total(t, j + 1);
  }

  lemma {:induction false} ChildIs(t: Type, c: nat, i: nat, j: nat)
    requires !t.Scalar? && i <= j < Count(t) && Before(t, i) <= c && Before(t, j) <= c < Before(t, j + 1)
    ensures Child(t, c, i) == j
    decreases j - i
  {
    if i < j {
      BeforeGrows(t, i + 1, j);
      ChildIs(t, c, i + 1, j);
    }
  }

  lemma {:induction false} ChildFound(t: Type, c: nat, i: nat)
    requires !t.Scalar? && i <= Count(t) && Before(t, i) <= c < Before(t, Count(t))
    ensures var j := Child(t, c, i); j < Count(t) && c < Before(t, j + 1)
    decreases Count(t) - i
  {
    if !(i == Count(t) || c < Before(t, i + 1)) { ChildFound(t, c, i + 1); }
  }

  lemma OuterAt(t: Type, j: nat)
    requires !t.Scalar? && j < Count(t) && NonEmpty(t)
    ensures Outer(t, Before(t, j)) == Sub(t, j)
  {
    PartNonEmpty(t, j);
    ChildIs(t, Before(t, j), 0, j);
  }

  lemma OuterInside(t: Type, j: nat, c: nat, at: nat)
    requires !t.Scalar? && j < Count(t) && NonEmpty(t) && !Sub(t, j).Scalar? && 0 < c < ScalarCount(Sub(t, j))
    requires at == Before(t, j) + c
    ensures Outer(t, at) == Outer(Sub(t, j), c)
  {
    PartNonEmpty(t, j);
    ChildIs(t, at, 0, j);
    OuterOfChild(t, j, c, at);
  }

  lemma OuterOfChild(t: Type, j: nat, c: nat, at: nat)
    requires !t.Scalar? && j < Count(t) && Child(t, at, 0) == j && !Sub(t, j).Scalar?
    requires at != Before(t, j) && c == at - Before(t, j)
    ensures Outer(t, at) == Outer(Sub(t, j), c)
  {}

  lemma {:induction false} OuterFits(t: Type, c: nat)
    requires !t.Scalar? && NonEmpty(t) && c < ScalarCount(t)
    ensures 0 < ScalarCount(Outer(t, c)) <= ScalarCount(t) - c && NonEmpty(Outer(t, c))
    decreases t
  {
    Total(t, Count(t));
    ChildFound(t, c, 0);
    var j := Child(t, c, 0);
    PartNonEmpty(t, j);
    var u := Sub(t, j);
    if c == Before(t, j) || u.Scalar? { OffsetInside(u, []); } else { OuterFits(u, c - Before(t, j)); }
  }

  /** What an item does stays within the object. */
  lemma ChangeFits(t: Type, cursor: nat, p: seq<Desig>, item: Item, inC: bool)
    requires !t.Scalar? && NonEmpty(t) && (p == [] ==> cursor < ScalarCount(t))
    ensures var c := Effect(t, cursor, p, item, inC);
            c.Change? ==> c.at + |c.own| <= ScalarCount(t) && c.next <= ScalarCount(t) && |c.own| > 0
                          && (p == [] ==> c.at == cursor && c.next == cursor + |c.own|)
  {
    if p == [] {
      OuterFits(t, cursor);
    } else {
      if Matches(t, p[0]) { PartNonEmpty(t, p[0].i); }
      if Valid(t, p) { DesignatedFits(t, p); }
    }
  }

  lemma DesignatedFits(t: Type, p: seq<Desig>)
    requires Valid(t, p) && NonEmpty(t)
    ensures Offset(t, p) + ScalarCount(Designated(t, p)) <= ScalarCount(t) && ScalarCount(Designated(t, p)) > 0
    ensures NonEmpty(Designated(t, p)) && Offset(t, p) < ScalarCount(t)
  {
    OffsetInside(t, p);
    TrailingEnds(t, p);
    DesignatedNonEmpty(t, p);
    OffsetInside(Designated(t, p), []);
  }

  lemma {:induction false} DesignatedNonEmpty(t: Type, p: seq<Desig>)
    requires Valid(t, p) && NonEmpty(t)
    ensures NonEmpty(Designated(t, p))
    decreases |p|
  {
    if p != [] { DesignatedNonEmpty(Sub(t, p[0].i), p[1..]); }
  }

  // ---- Reading a part is reading the object -----------------------------------------------------------------

  lemma OverIs(s: seq<int>, at: nat, own: seq<int>, r: seq<int>)
    requires at + |own| <= |s| && Overwrites(s, at, own, r)
    ensures r == Over(s, at, own)
  {
    var x := Over(s, at, own);
    forall k | 0 <= k < |s| ensures r[k] == x[k] {
      if at <= k < at + |own| { assert r[k] == own[k - at] == x[k]; }
    }
  }

  lemma ReplacesOver(all: seq<int>, from: nat, part: seq<int>, at: nat, own: seq<int>, to: nat)
    requires Holds(all, from, part) && at + |own| <= |part| && to == from + at
    ensures Replaces(all, from, part, Over(part, at, own), Over(all, to, own))
  {
    var part', all' := Over(part, at, own), Over(all, to, own);
    forall k | from <= k < from + |part| ensures all'[k] == part'[k - from] {
      if to <= k < to + |own| { assert all'[k] == own[k - to] == part'[k - from]; }
    }
  }

  lemma ReplacesTwice(a: seq<int>, from: int, p: seq<int>, q: seq<int>, b: seq<int>, r: seq<int>, c: seq<int>)
    requires Replaces(a, from, p, q, b) && Replaces(b, from, q, r, c)
    ensures Replaces(a, from, p, r, c)
  {}

  lemma ReplacesSame(a: seq<int>, from: int, p: seq<int>, q: seq<int>, b: seq<int>, c: seq<int>)
    requires Replaces(a, from, p, q, b) && Replaces(a, from, p, q, c)
    ensures b == c
  {
    forall k | 0 <= k < |a| ensures b[k] == c[k] {
      if from <= k < from + |p| { assert b[k] == q[k - from] == c[k]; }
    }
  }

  /** The scalars of the part `u` of `t` start at `from`. */
  function Shift(c: Change, from: nat): Change {
    if c.NoChange? then NoChange else Change(from + c.at, c.own, from + c.next)
  }

  lemma ItemInside(t: Type, j: nat, c: nat, at: nat, item: Item, inC: bool)
    requires !t.Scalar? && j < Count(t) && NonEmpty(t) && !Sub(t, j).Scalar? && 0 < c < ScalarCount(Sub(t, j))
    requires at == Before(t, j) + c
    ensures Effect(t, at, [], item, inC) == Shift(Effect(Sub(t, j), c, [], item, inC), Before(t, j))
  {
    OuterInside(t, j, c, at);
    if item.Braced? { SameOuter(t, at, Sub(t, j), c, Before(t, j), item.entries, inC); }
  }

  lemma SameOuter(t: Type, at: nat, u: Type, c: nat, from: nat, list: seq<Entry>, inC: bool)
    requires !t.Scalar? && !u.Scalar? && Outer(t, at) == Outer(u, c) && at == from + c
    ensures Effect(t, at, [], Braced(list), inC) == Shift(Effect(u, c, [], Braced(list), inC), from)
  {}

  /** A designated item does not depend on the cursor. */
  lemma SameCursor(t: Type, s: seq<int>, a: nat, b: nat, p: seq<Desig>, es: seq<Entry>, inC: bool)
    requires !t.Scalar? && (es == [] || p != [] || a == b)
    ensures Read(t, s, a, p, es, inC) == Read(t, s, b, p, es, inC)
  {}

  lemma ReadFirst(t: Type, s: seq<int>, cursor: nat, p: seq<Desig>, es: seq<Entry>, inC: bool, c: Change)
    requires !t.Scalar? && es != [] && (p == [] ==> cursor < |s|) && c == Effect(t, cursor, p, es[0].item, inC)
    ensures Read(t, s, cursor, p, es, inC) ==
            if c.NoChange? then Wrong
            else Plus(1, Read(t, Over(s, c.at, c.own), c.next, DesigAt(es, 1), es[1..], inC))
  {}

  /** `q` is what a part is read as; reading the object does the same, and goes on after the part with the rest, if
      that is reached. */
  ghost predicate GoesOn(t: Type, s: seq<int>, j: nat, part: seq<int>, q: Reading, s': seq<int>, es: seq<Entry>,
                         all: Reading, inC: bool)
    requires !t.Scalar? && j < Count(t)
  {
    if q.Wrong? then all.Wrong?
    else
      && q.taken <= |es| && Replaces(s, Before(t, j), part, q.s, s')
      && all == Plus(q.taken, Read(t, s', Before(t, j + 1), DesigAt(es, q.taken), es[q.taken..], inC))
  }

  /** Items without designators, up to a designated one, read from within a part. */
  lemma {:induction false} PartIsRead(t: Type, j: nat, s: seq<int>, part: seq<int>, c: nat, at: nat, es: seq<Entry>,
                                      n: nat, q: Reading, inC: bool)
    returns (s': seq<int>)
    requires !t.Scalar? && j < Count(t) && NonEmpty(t) && !Sub(t, j).Scalar? && |s| == ScalarCount(t)
    requires |part| == ScalarCount(Sub(t, j)) && Holds(s, Before(t, j), part)
    requires 0 < c <= |part| && at == Before(t, j) + c && n <= |es| && (forall i :: 0 <= i < n ==> es[i].desig == [])
    requires (n < |es| ==> es[n].desig != []) && q == Read(Sub(t, j), part, c, [], es[..n], inC)
    ensures GoesOn(t, s, j, part, q, s', es, Read(t, s, at, DesigAt(es, 0), es, inC), inC)
    decreases n, 1
  {
    s' := s;
    PartNonEmpty(t, j);
    if n == 0 || c == |part| {
      PartStops(t, j, s, part, c, at, es, n, q, inC);
    } else {
      s' := PartTurn(t, j, s, part, c, at, es, n, q, inC);
    }
  }

  lemma PartStops(t: Type, j: nat, s: seq<int>, part: seq<int>, c: nat, at: nat, es: seq<Entry>, n: nat, q: Reading,
                  inC: bool)
    requires !t.Scalar? && j < Count(t) && !Sub(t, j).Scalar? && Holds(s, Before(t, j), part)
    requires |part| == ScalarCount(Sub(t, j)) && at == Before(t, j) + c && n <= |es|
    requires (n == 0 && (es != [] ==> es[0].desig != [])) || (n > 0 && c == |part|)
    requires q == Read(Sub(t, j), part, c, [], es[..n], inC)
    ensures GoesOn(t, s, j, part, q, s, es, Read(t, s, at, DesigAt(es, 0), es, inC), inC)
  {
    assert es[0..] == es;
    if n == 0 { SameCursor(t, s, at, Before(t, j + 1), DesigAt(es, 0), es, inC); }
  }

  lemma CutFirst(es: seq<Entry>, n: nat)
    requires 0 < n <= |es| && (forall i :: 1 <= i < n ==> es[i].desig == [])
    ensures es[..n] != [] && es[..n][0] == es[0] && es[..n][1..] == es[1..][..n - 1] && DesigAt(es[..n], 1) == []
    ensures DesigAt(es, 1) == DesigAt(es[1..], 0) && forall i :: 0 <= i < n - 1 ==> es[1..][i].desig == []
    ensures n < |es| ==> es[1..][n - 1] == es[n]
  {}

  lemma {:induction false} PartTurn(t: Type, j: nat, s: seq<int>, part: seq<int>, c: nat, at: nat, es: seq<Entry>,
                                    n: nat, q: Reading, inC: bool)
    returns (s': seq<int>)
    requires !t.Scalar? && j < Count(t) && NonEmpty(t) && !Sub(t, j).Scalar? && |s| == ScalarCount(t)
    requires |part| == ScalarCount(Sub(t, j)) && Holds(s, Before(t, j), part)
    requires 0 < c < |part| && at == Before(t, j) + c < |s|
    requires 0 < n <= |es| && (forall i :: 0 <= i < n ==> es[i].desig == [])
    requires (n < |es| ==> es[n].desig != []) && q == Read(Sub(t, j), part, c, [], es[..n], inC)
    ensures GoesOn(t, s, j, part, q, s', es, Read(t, s, at, [], es, inC), inC)
    decreases n, 0
  {
    var e := Effect(Sub(t, j), c, [], es[0].item, inC);
    s' := s;
    ItemInside(t, j, c, at, es[0].item, inC);
    CutFirst(es, n);
    ReadFirst(Sub(t, j), part, c, [], es[..n], inC, e);
    ReadFirst(t, s, at, [], es, inC, Shift(e, Before(t, j)));
    if e.Change? {
      ChangeFits(Sub(t, j), c, [], es[0].item, inC);
      s' := PartAfter(t, j, s, part, es, es[1..], n - 1, e, Shift(e, Before(t, j)), q, Read(t, s, at, [], es, inC),
                      inC);
    }
  }

  /** Once an item has changed the part by `e`, and so the object by `f`. */
  lemma {:induction false} PartAfter(t: Type, j: nat, s: seq<int>, part: seq<int>, es: seq<Entry>, rest: seq<Entry>,
                                     n: nat, e: Change, f: Change, q: Reading, all: Reading, inC: bool)
    returns (s': seq<int>)
    requires !t.Scalar? && j < Count(t) && NonEmpty(t) && !Sub(t, j).Scalar? && |s| == ScalarCount(t)
    requires |part| == ScalarCount(Sub(t, j)) && Holds(s, Before(t, j), part)
    requires es != [] && rest == es[1..] && n <= |rest| && (forall i :: 0 <= i < n ==> rest[i].desig == [])
    requires n < |rest| ==> rest[n].desig != []
    requires e.Change? && f == Shift(e, Before(t, j)) && e.at + |e.own| <= |part| && 0 < e.next <= |part|
    requires q == Plus(1, Read(Sub(t, j), Over(part, e.at, e.own), e.next, [], rest[..n], inC))
    requires all == Plus(1, Read(t, Over(s, f.at, f.own), f.next, DesigAt(rest, 0), rest, inC))
    ensures GoesOn(t, s, j, part, q, s', es, all, inC) && (q.Reading? ==> q.taken >= 1)
    decreases n, 3
  {
    ReplacesOver(s, Before(t, j), part, e.at, e.own, f.at);
    s' := PartNext(t, j, s, part, es, rest, n, Over(part, e.at, e.own), Over(s, f.at, f.own), e.next, f.next, q, all,
                   inC);
  }

  lemma {:induction false} PartNext(t: Type, j: nat, s: seq<int>, part: seq<int>, es: seq<Entry>, rest: seq<Entry>,
                                    n: nat, part1: seq<int>, s1: seq<int>, c: nat, at: nat, q: Reading, all: Reading,
                                    inC: bool)
    returns (s': seq<int>)
    requires !t.Scalar? && j < Count(t) && NonEmpty(t) && !Sub(t, j).Scalar? && |s1| == ScalarCount(t)
    requires es != [] && rest == es[1..] && n <= |rest| && (forall i :: 0 <= i < n ==> rest[i].desig == [])
    requires (n < |rest| ==> rest[n].desig != []) && |part1| == ScalarCount(Sub(t, j))
    requires Replaces(s, Before(t, j), part, part1, s1) && 0 < c <= |part1| && at == Before(t, j) + c
    requires q == Plus(1, Read(Sub(t, j), part1, c, [], rest[..n], inC))
    requires all == Plus(1, Read(t, s1, at, DesigAt(rest, 0), rest, inC))
    ensures GoesOn(t, s, j, part, q, s', es, all, inC) && (q.Reading? ==> q.taken >= 1)
    decreases n, 2
  {
    var q1 := Read(Sub(t, j), part1, c, [], rest[..n], inC);
    s' := PartIsRead(t, j, s1, part1, c, at, rest, n, q1, inC);
    TurnGoesOn(t, s, j, part, q, s', es, all, inC, q1, part1, s1, Read(t, s1, at, DesigAt(rest, 0), rest, inC));
  }

  lemma TurnGoesOn(t: Type, s: seq<int>, j: nat, part: seq<int>, q: Reading, s': seq<int>, es: seq<Entry>,
                   all: Reading, inC: bool, q1: Reading, part1: seq<int>, s1: seq<int>, all1: Reading)
    requires !t.Scalar? && j < Count(t) && es != [] && q == Plus(1, q1) && all == Plus(1, all1)
    requires Replaces(s, Before(t, j), part, part1, s1)
    requires GoesOn(t, s1, j, part1, q1, s', es[1..], all1, inC)
    ensures GoesOn(t, s, j, part, q, s', es, all, inC)
  {
    if q1.Reading? {
      ReplacesTwice(s, Before(t, j), part, part1, s1, q1.s, s');
      assert es[1..][q1.taken..] == es[q.taken..] && DesigAt(es[1..], q1.taken) == DesigAt(es, q.taken);
    }
  }

  /** The same with the first item, an expression, which may still have designators into the part. */
  lemma RunIsRead(t: Type, j: nat, s: seq<int>, part: seq<int>, cursor: nat, p: seq<Desig>, path: seq<Desig>,
                  es: seq<Entry>, n: nat, q: Reading, inC: bool)
    returns (s': seq<int>)
    requires !t.Scalar? && j < Count(t) && NonEmpty(t) && !Sub(t, j).Scalar? && |s| == ScalarCount(t)
    requires |part| == ScalarCount(Sub(t, j)) && Holds(s, Before(t, j), part)
    requires es != [] && es[0].item.Single? && n == RunLength(es) && Valid(Sub(t, j), path)
    requires if p != [] then Matches(t, p[0]) && j == p[0].i && path == p[1..] else cursor == Before(t, j) && path == []
    requires q == Read(Sub(t, j), part, 0, path, es[..n], inC)
    ensures GoesOn(t, s, j, part, q, s', es, Read(t, s, cursor, p, es, inC), inC)
    ensures q.Reading? ==> q.taken >= 1
  {
    var u, v := Sub(t, j), es[0].item.v;
    PartNonEmpty(t, j);
    OffsetInside(u, path);
    var e := Change(Offset(u, path), [v], Offset(u, path) + 1);
    var f := Shift(e, Before(t, j));
    FirstItems(t, j, cursor, p, path, v, e, f, inC);
    CutFirst(es, n);
    ReadFirst(u, part, 0, path, es[..n], inC, e);
    ReadFirst(t, s, cursor, p, es, inC, f);
    s' := PartAfter(t, j, s, part, es, es[1..], n - 1, e, f, q, Read(t, s, cursor, p, es, inC), inC);
  }

  lemma FirstItems(t: Type, j: nat, cursor: nat, p: seq<Desig>, path: seq<Desig>, v: int, e: Change, f: Change,
                   inC: bool)
    requires !t.Scalar? && j < Count(t) && !Sub(t, j).Scalar? && Valid(Sub(t, j), path)
    requires if p != [] then Matches(t, p[0]) && j == p[0].i && path == p[1..] else cursor == Before(t, j) && path == []
    requires e == Change(Offset(Sub(t, j), path), [v], Offset(Sub(t, j), path) + 1) && f == Shift(e, Before(t, j))
    ensures Effect(Sub(t, j), 0, path, Single(v), inC) == e && Effect(t, cursor, p, Single(v), inC) == f
  {}

  // ---- Normalising does what the list says --------------------------------------------------------------------

  /** What the loop leaves agrees with what the list says. */
  ghost predicate Agrees(t: Type, r: Outcomes, q: Reading) {
    if q.Wrong? then r.DieAll? else r.DoneAll? && r.taken == q.taken && Scalars(t, Members(r.subs)) == q.s
  }

  /** The designators left are those of the next item. */
  ghost predicate IsNext(r: Outcomes, p: seq<Desig>, es: seq<Entry>) {
    r.DoneAll? ==> r.left == if r.taken == 0 then p else DesigAt(es, r.taken)
  }

  /** What an object becomes by a braced list agrees with what the list says. */
  ghost predicate ObjectAgrees(t: Type, r: Outcome, v: Option<seq<int>>) {
    if v.None? then r.Die? else r.Done? && r.taken == 1 && r.left == [] && Scalars(t, r.tree) == v.value
  }

  /** The sub-object that the loop turns to. */
  function TurnTo(i: nat, p: seq<Desig>): nat {
    if p != [] then p[0].i else i
  }

  function TurnPath(p: seq<Desig>): seq<Desig> {
    if p != [] then p[1..] else []
  }

  /** Designators that do not match are met. */
  lemma {:induction false} InvalidDies(t: Type, cur: Tree, p: seq<Desig>, es: seq<Entry>)
    requires es != [] && !Valid(t, p) && es[0].item != Braced([])
    ensures Normalise(t, cur, p, es).Die?
    decreases |p|
  {
    if !t.Scalar? && Matches(t, p[0]) {
      var n := if es[0].item.Braced? then 1 else RunLength(es);
      InvalidDies(Sub(t, p[0].i), At(SubsOf(cur), p[0].i), p[1..], es[..n]);
    }
  }

  lemma ReplacesOverwrites(all: seq<int>, from: int, part: seq<int>, own: seq<int>, all': seq<int>)
    requires Replaces(all, from, part, own, all')
    ensures Overwrites(all, from, own, all') && 0 <= from && from + |own| <= |all|
  {}

  /** A braced item of the loop, against what the item says. */
  ghost predicate TurnAgrees(t: Type, subs: seq<Tree>, j: nat, first: Outcome, c: Change)
    requires !t.Scalar? && j < Count(t)
  {
    if c.NoChange? then first.Die?
    else
      && first.Done? && c.next == Before(t, j + 1)
      && Scalars(t, Members(Padded(subs, j, first.tree))) == Over(Scalars(t, Members(subs)), c.at, c.own)
  }

  lemma TurnOver(t: Type, subs: seq<Tree>, j: nat, x: Tree, at: nat, own: seq<int>)
    requires !t.Scalar? && j < Count(t) && at == Before(t, j) && own == Scalars(Sub(t, j), x)
    ensures Scalars(t, Members(Padded(subs, j, x))) == Over(Scalars(t, Members(subs)), at, own)
  {
    var s, s' := Scalars(t, Members(subs)), Scalars(t, Members(Padded(subs, j, x)));
    Part(t, subs, j, x);
    ReplacesOverwrites(s, at, Scalars(Sub(t, j), At(subs, j)), own, s');
    OverIs(s, at, own, s');
  }

  /** Without designators. */
  lemma {:induction false} PlainBrace(t: Type, subs: seq<Tree>, i: nat, e: Entry)
    requires !t.Scalar? && i < Count(t) && NonEmpty(t) && e.item.Braced?
    requires ObjectAgrees(Sub(t, i), Normalise(Sub(t, i), At(subs, i), [], [e]), ListValue(Sub(t, i), e.item.entries,
                          false))
    ensures TurnAgrees(t, subs, i, Normalise(Sub(t, i), At(subs, i), [], [e]),
                       Effect(t, Before(t, i), [], e.item, false))
  {
    OuterAt(t, i);
    PartNonEmpty(t, i);
    var first := Normalise(Sub(t, i), At(subs, i), [], [e]);
    if first.Done? { TurnOver(t, subs, i, first.tree, Before(t, i), Scalars(Sub(t, i), first.tree)); }
  }

  /** An empty list behind designators. */
  lemma EmptyBrace(t: Type, subs: seq<Tree>, cursor: nat, p: seq<Desig>, e: Entry)
    requires !t.Scalar? && p != [] && Matches(t, p[0]) && e.item == Braced([])
    ensures TurnAgrees(t, subs, p[0].i, Normalise(Sub(t, p[0].i), At(subs, p[0].i), p[1..], [e]),
                       Effect(t, cursor, p, e.item, false))
  {
    var j := p[0].i;
    var u, first := Sub(t, j), Normalise(Sub(t, j), At(subs, j), p[1..], [e]);
    if u.Scalar? {
      if |p| == 1 { assert Zeros(1) == [0] + Zeros(0) == [0]; }
    } else {
      EmptyBraceClears(u, At(subs, j), p[1..], e);
    }
    if first.Done? { TurnOver(t, subs, j, first.tree, Before(t, j), Zeros(ScalarCount(u))); }
  }

  /** A list that is not empty. */
  lemma DesignatedBrace(t: Type, subs: seq<Tree>, cursor: nat, p: seq<Desig>, e: Entry)
    requires !t.Scalar? && p != [] && Valid(t, p) && e.item.Braced? && e.item.entries != []
    requires var u := Designated(t, p);
             ObjectAgrees(u, Normalise(u, Missing, [], [e]), ListValue(u, e.item.entries, false))
    ensures TurnAgrees(t, subs, p[0].i, Normalise(Sub(t, p[0].i), At(subs, p[0].i), p[1..], [e]),
                       Effect(t, cursor, p, e.item, false))
  {
    var j, path := p[0].i, p[1..];
    var u, was := Sub(t, j), At(subs, j);
    BraceReplaces(u, was, path, e);
    var first, own := Normalise(u, was, path, [e]), Normalise(Designated(t, p), Missing, [], [e]);
    if own.Done? { DesignatedOver(t, subs, p, first.tree, Scalars(Designated(t, p), own.tree)); }
  }

  lemma DesignatedOver(t: Type, subs: seq<Tree>, p: seq<Desig>, x: Tree, own: seq<int>)
    requires !t.Scalar? && p != [] && Valid(t, p)
    requires var u := Sub(t, p[0].i);
             Overwrites(Scalars(u, At(subs, p[0].i)), Offset(u, p[1..]), own, Scalars(u, x))
    requires |own| == ScalarCount(Designated(t, p))
    ensures Scalars(t, Members(Padded(subs, p[0].i, x))) == Over(Scalars(t, Members(subs)), Offset(t, p), own)
  {
    var j := p[0].i;
    var s, s' := Scalars(t, Members(subs)), Scalars(t, Members(Padded(subs, j, x)));
    Part(t, subs, j, x);
    OverwritesPart(s, Before(t, j), Scalars(Sub(t, j), At(subs, j)), Scalars(Sub(t, j), x), s',
                   Offset(Sub(t, j), p[1..]), own);
    OverIs(s, Offset(t, p), own, s');
  }

  /** What one turn of the loop leaves: the rest of the list `more`, from the sub-object `next` on, or nothing if the
      item is in error. */
  datatype Turn = Dead | Turn(k: nat, next: nat, mid: seq<Tree>)

  ghost predicate TurnDone(t: Type, turn: Turn, es: seq<Entry>, r: Outcomes, q: Reading)
    requires !t.Scalar?
  {
    if turn.Dead? then r.DieAll? && q.Wrong?
    else
      && 1 <= turn.k <= |es| && turn.next <= Count(t)
      && r == Continued(turn.k, Loop(t, turn.mid, turn.next, DesigAt(es, turn.k), es[turn.k..]))
      && q == Plus(turn.k, Read(t, Scalars(t, Members(turn.mid)), Before(t, turn.next), DesigAt(es, turn.k),
                                es[turn.k..], false))
  }

  lemma LoopTurn(t: Type, subs: seq<Tree>, i: nat, p: seq<Desig>, es: seq<Entry>, j: nat, first: Outcome, next: nat)
    requires !t.Scalar? && i <= Count(t) && es != [] && j == TurnTo(i, p) < Count(t) && next == j + 1
    requires (p != [] ==> Matches(t, p[0])) && first == Normalise(Sub(t, j), At(subs, j), TurnPath(p), es)
    ensures Loop(t, subs, i, p, es) ==
            if first.Die? then DieAll
            else Continued(first.taken, Loop(t, Padded(subs, j, first.tree), next, first.left, es[first.taken..]))
  {
    if p == [] { NextTurn(t, subs, j, es, first, next); } else { DesignatedTurn(t, subs, i, p, es, j, first, next); }
  }

  /** A turn that takes one item. */
  lemma OneTurn(t: Type, subs: seq<Tree>, i: nat, p: seq<Desig>, es: seq<Entry>, j: nat, first: Outcome, c: Change,
                r: Outcomes, q: Reading)
    returns (turn: Turn)
    requires !t.Scalar? && i <= Count(t) && NonEmpty(t) && es != [] && j == TurnTo(i, p) < Count(t)
    requires if p != [] then Matches(t, p[0]) else i < Count(t)
    requires r == Loop(t, subs, i, p, es) && q == Read(t, Scalars(t, Members(subs)), Before(t, i), p, es, false)
    requires first == Normalise(Sub(t, j), At(subs, j), TurnPath(p), es)
    requires first.Done? ==> first.taken == 1 && first.left == DesigAt(es, 1)
    requires c == Effect(t, Before(t, i), p, es[0].item, false) && TurnAgrees(t, subs, j, first, c)
    ensures TurnDone(t, turn, es, r, q)
  {
    LoopTurn(t, subs, i, p, es, j, first, j + 1);
    ItemRead(t, subs, i, p, es, c);
    turn := if c.NoChange? then Dead else Turn(1, j + 1, Padded(subs, j, first.tree));
  }

  /** A turn with a braced item. */
  lemma {:induction false} BracedTurn(t: Type, subs: seq<Tree>, i: nat, p: seq<Desig>, es: seq<Entry>, r: Outcomes,
                                      q: Reading)
    returns (turn: Turn)
    requires !t.Scalar? && i <= Count(t) && NonEmpty(t) && es != [] && es[0].item.Braced?
    requires if p != [] then Matches(t, p[0]) else i < Count(t)
    requires r == Loop(t, subs, i, p, es) && q == Read(t, Scalars(t, Members(subs)), Before(t, i), p, es, false)
    ensures TurnDone(t, turn, es, r, q)
    decreases es, |p|, t, 1, 0
  {
    var j := TurnTo(i, p);
    var first := BracedFirst(t, subs, i, p, es);
    turn := OneTurn(t, subs, i, p, es, j, first, Effect(t, Before(t, i), p, es[0].item, false), r, q);
  }

  lemma {:induction false} BracedFirst(t: Type, subs: seq<Tree>, i: nat, p: seq<Desig>, es: seq<Entry>)
    returns (first: Outcome)
    requires !t.Scalar? && i <= Count(t) && NonEmpty(t) && es != [] && es[0].item.Braced?
    requires if p != [] then Matches(t, p[0]) else i < Count(t)
    ensures first == Normalise(Sub(t, TurnTo(i, p)), At(subs, TurnTo(i, p)), TurnPath(p), es)
    ensures first.Done? ==> first.taken == 1 && first.left == DesigAt(es, 1)
    ensures TurnAgrees(t, subs, TurnTo(i, p), first, Effect(t, Before(t, i), p, es[0].item, false))
    decreases es, |p|, t, 0, 1
  {
    var j, e := TurnTo(i, p), es[0];
    BracedItem(t, subs, i, p, es);
    assert es == [e] + es[1..] && DesigAt(es, 1) == DesigAt(es[1..], 0);
    BracedAlone(Sub(t, j), At(subs, j), TurnPath(p), e, es[1..]);
    first := Normalise(Sub(t, j), At(subs, j), TurnPath(p), es);
  }

  lemma ItemRead(t: Type, subs: seq<Tree>, i: nat, p: seq<Desig>, es: seq<Entry>, c: Change)
    requires !t.Scalar? && i <= Count(t) && NonEmpty(t) && es != [] && (p == [] ==> i < Count(t))
    requires c == Effect(t, Before(t, i), p, es[0].item, false)
    ensures var s := Scalars(t, Members(subs));
            Read(t, s, Before(t, i), p, es, false) ==
            if c.NoChange? then Wrong
            else Plus(1, Read(t, Over(s, c.at, c.own), c.next, DesigAt(es, 1), es[1..], false))
  {
    ScalarsLength(t, Members(subs));
    if p == [] { PartNonEmpty(t, i); }
    ReadFirst(t, Scalars(t, Members(subs)), Before(t, i), p, es, false, c);
  }

  lemma {:induction false} BracedItem(t: Type, subs: seq<Tree>, i: nat, p: seq<Desig>, es: seq<Entry>)
    requires !t.Scalar? && i <= Count(t) && NonEmpty(t) && es != [] && es[0].item.Braced?
    requires if p != [] then Matches(t, p[0]) else i < Count(t)
    ensures var j := TurnTo(i, p);
            TurnAgrees(t, subs, j, Normalise(Sub(t, j), At(subs, j), TurnPath(p), [es[0]]),
                       Effect(t, Before(t, i), p, es[0].item, false))
    decreases es, |p|, t, 0, 0
  {
    var e := es[0];
    if p == [] {
      ObjectIsRead(Sub(t, i), At(subs, i), e);
      PlainBrace(t, subs, i, e);
    } else if e.item.entries == [] {
      EmptyBrace(t, subs, Before(t, i), p, e);
    } else if Valid(t, p) {
      DesignatedFits(t, p);
      ObjectIsRead(Designated(t, p), Missing, e);
      DesignatedBrace(t, subs, Before(t, i), p, e);
    } else {
      InvalidDies(Sub(t, p[0].i), At(subs, p[0].i), p[1..], [e]);
    }
  }

  /** An object initialised by a list in braces is what the list says, whatever it held. */
  lemma {:induction false} ObjectIsRead(t: Type, cur: Tree, e: Entry)
    requires NonEmpty(t) && e.item.Braced?
    ensures ObjectAgrees(t, Normalise(t, cur, [], [e]), ListValue(t, e.item.entries, false))
    decreases e.item.entries, |DesigAt(e.item.entries, 0)|, t, 4, 0
  {
    var list := e.item.entries;
    if t.Scalar? {
      assert Zeros(1) == [0] + Zeros(0) == [0];
      if list != [] && list[0].desig == [] && list[0].item.Braced? {
        ObjectIsRead(Scalar, cur, list[0]);
        assert list == [list[0]] + list[1..];
        BracedAlone(Scalar, cur, [], list[0], list[1..]);
      }
    } else if list == [] {
      EmptyBraceClears(t, cur, [], e);
    } else {
      MissingIsZero(t);
      assert Scalars(t, Members([])) == Scalars(t, Missing);
      ListIsRead(t, [], 0, list[0].desig, list, Loop(t, [], 0, list[0].desig, list),
                 Read(t, Scalars(t, Members([])), 0, list[0].desig, list, false));
      assert [e][..1] == [e];
    }
  }

  /** A turn with an expression. */
  lemma {:induction false} SingleTurn(t: Type, subs: seq<Tree>, i: nat, p: seq<Desig>, es: seq<Entry>, r: Outcomes,
                                      q: Reading)
    returns (turn: Turn)
    requires !t.Scalar? && i <= Count(t) && NonEmpty(t) && es != [] && es[0].item.Single?
    requires if p != [] then Valid(t, p) else i < Count(t)
    requires r == Loop(t, subs, i, p, es) && q == Read(t, Scalars(t, Members(subs)), Before(t, i), p, es, false)
    ensures TurnDone(t, turn, es, r, q)
    decreases es, |p|, t, 1, 0
  {
    var j, path := TurnTo(i, p), TurnPath(p);
    if Sub(t, j).Scalar? {
      var c := ScalarItem(t, subs, i, p, es, j);
      turn := OneTurn(t, subs, i, p, es, j, Done(Value(es[0].item.v), 1, DesigAt(es, 1)), c, r, q);
    } else {
      var n := RunLength(es);
      assert n == |es| ==> es[..n] == es;
      var ru := Loop(Sub(t, j), SubsOf(At(subs, j)), 0, path, es[..n]);
      var qu := Read(Sub(t, j), Scalars(Sub(t, j), Members(SubsOf(At(subs, j)))), 0, path, es[..n], false);
      ListIsRead(Sub(t, j), SubsOf(At(subs, j)), 0, path, es[..n], ru, qu);
      turn := RunTurn(t, subs, i, p, es, j, n, ru, qu, r, q);
    }
  }

  lemma ScalarItem(t: Type, subs: seq<Tree>, i: nat, p: seq<Desig>, es: seq<Entry>, j: nat) returns (c: Change)
    requires !t.Scalar? && i <= Count(t) && NonEmpty(t) && es != [] && es[0].item.Single?
    requires (if p != [] then Valid(t, p) else i < Count(t)) && j == TurnTo(i, p) && Sub(t, j).Scalar?
    ensures TurnPath(p) == [] && c == Effect(t, Before(t, i), p, es[0].item, false)
    ensures TurnAgrees(t, subs, j, Done(Value(es[0].item.v), 1, DesigAt(es, 1)), c)
  {
    var v := es[0].item.v;
    PartNonEmpty(t, j);
    if p != [] { assert Valid(Sub(t, j), p[1..]) && p[1..] == [] && Offset(t, p) == Before(t, j) + 0; }
    c := Change(Before(t, j), [v], Before(t, j) + 1);
    TurnOver(t, subs, j, Value(v), Before(t, j), [v]);
  }

  /** A turn with an aggregate, from what its own loop leaves. */
  lemma RunTurn(t: Type, subs: seq<Tree>, i: nat, p: seq<Desig>, es: seq<Entry>, j: nat, n: nat, ru: Outcomes,
                qu: Reading, r: Outcomes, q: Reading)
    returns (turn: Turn)
    requires !t.Scalar? && i <= Count(t) && NonEmpty(t) && es != [] && es[0].item.Single? && n == RunLength(es)
    requires (if p != [] then Valid(t, p) else i < Count(t)) && j == TurnTo(i, p) && !Sub(t, j).Scalar?
    requires ru == Loop(Sub(t, j), SubsOf(At(subs, j)), 0, TurnPath(p), es[..n])
    requires qu == Read(Sub(t, j), Scalars(Sub(t, j), Members(SubsOf(At(subs, j)))), 0, TurnPath(p), es[..n], false)
    requires Agrees(Sub(t, j), ru, qu) && IsNext(ru, TurnPath(p), es[..n])
    requires r == Loop(t, subs, i, p, es) && q == Read(t, Scalars(t, Members(subs)), Before(t, i), p, es, false)
    ensures TurnDone(t, turn, es, r, q)
  {
    var mid := Padded(subs, j, Members(if ru.DoneAll? then ru.subs else []));
    var next := j + 1;
    RunReads(t, subs, i, p, es, j, next, n, ru, qu, mid, q);
    RunLoops(t, subs, i, p, es, j, next, n, ru, mid, r);
    turn := if ru.DieAll? then Dead else Turn(ru.taken, next, mid);
  }

  lemma RunLoops(t: Type, subs: seq<Tree>, i: nat, p: seq<Desig>, es: seq<Entry>, j: nat, next: nat, n: nat,
                 ru: Outcomes, mid: seq<Tree>, r: Outcomes)
    requires !t.Scalar? && i <= Count(t) && es != [] && es[0].item.Single? && n == RunLength(es)
    requires (p != [] ==> Matches(t, p[0])) && j == TurnTo(i, p) < Count(t) && !Sub(t, j).Scalar?
    requires ru == Loop(Sub(t, j), SubsOf(At(subs, j)), 0, TurnPath(p), es[..n])
    requires IsNext(ru, TurnPath(p), es[..n]) && r == Loop(t, subs, i, p, es) && (ru.DoneAll? ==> ru.taken >= 1)
    requires next == j + 1 && (ru.DoneAll? ==> mid == Padded(subs, j, Members(ru.subs)))
    ensures r == if ru.DieAll? then DieAll
                 else Continued(ru.taken, Loop(t, mid, next, DesigAt(es, ru.taken), es[ru.taken..]))
  {
    RunNormalised(Sub(t, j), At(subs, j), TurnPath(p), es, n, ru);
    LoopTurn(t, subs, i, p, es, j, Normalise(Sub(t, j), At(subs, j), TurnPath(p), es), next);
  }

  lemma RunReads(t: Type, subs: seq<Tree>, i: nat, p: seq<Desig>, es: seq<Entry>, j: nat, next: nat, n: nat,
                 ru: Outcomes, qu: Reading, mid: seq<Tree>, q: Reading)
    requires !t.Scalar? && i <= Count(t) && NonEmpty(t) && es != [] && es[0].item.Single? && n == RunLength(es)
    requires (if p != [] then Valid(t, p) else i < Count(t)) && j == TurnTo(i, p) && !Sub(t, j).Scalar?
    requires qu == Read(Sub(t, j), Scalars(Sub(t, j), Members(SubsOf(At(subs, j)))), 0, TurnPath(p), es[..n], false)
    requires Agrees(Sub(t, j), ru, qu) && q == Read(t, Scalars(t, Members(subs)), Before(t, i), p, es, false)
    requires next == j + 1 && (ru.DoneAll? ==> mid == Padded(subs, j, Members(ru.subs)))
    ensures if qu.Wrong? then q.Wrong?
            else
              && 1 <= qu.taken <= |es|
              && q == Plus(qu.taken, Read(t, Scalars(t, Members(mid)), Before(t, next), DesigAt(es, qu.taken),
                                          es[qu.taken..], false))
  {
    var s, part := Scalars(t, Members(subs)), Scalars(Sub(t, j), At(subs, j));
    ScalarsLength(t, Members(subs));
    ScalarsLength(Sub(t, j), At(subs, j));
    Part(t, subs, j, if ru.DoneAll? then Members(ru.subs) else Missing);
    var s' := RunIsRead(t, j, s, part, Before(t, i), p, TurnPath(p), es, n, qu, false);
    if ru.DoneAll? { ReplacesSame(s, Before(t, j), part, qu.s, s', Scalars(t, Members(mid))); }
  }

  lemma RunNormalised(t: Type, cur: Tree, p: seq<Desig>, es: seq<Entry>, n: nat, r: Outcomes)
    requires !t.Scalar? && es != [] && es[0].item.Single? && n == RunLength(es)
    requires r == Loop(t, SubsOf(cur), 0, p, es[..n]) && IsNext(r, p, es[..n]) && (r.DoneAll? ==> r.taken >= 1)
    ensures Normalise(t, cur, p, es) ==
            if r.DieAll? then Die else Done(Members(r.subs), r.taken, DesigAt(es, r.taken))
  {}

  /** Normalising a list reads it so, whatever had been initialised before. */
  lemma {:induction false} ListIsRead(t: Type, subs: seq<Tree>, i: nat, p: seq<Desig>, es: seq<Entry>, r: Outcomes,
                                      q: Reading)
    requires !t.Scalar? && i <= Count(t) && NonEmpty(t) && (es == [] ==> p == [])
    requires r == Loop(t, subs, i, p, es) && q == Read(t, Scalars(t, Members(subs)), Before(t, i), p, es, false)
    ensures Agrees(t, r, q) && IsNext(r, p, es)
    decreases es, |p|, t, 2, Count(t) - i
  {
    if es == [] || (p == [] && i == Count(t)) {
      ListStops(t, subs, i, p, es);
    } else if p != [] && !Matches(t, p[0]) {
      assert Effect(t, Before(t, i), p, es[0].item, false) == NoChange;
    } else if es[0].item.Single? && !Valid(t, p) {
      InvalidDies(Sub(t, p[0].i), At(subs, p[0].i), p[1..], es);
    } else {
      var turn;
      if es[0].item.Braced? {
        turn := BracedTurn(t, subs, i, p, es, r, q);
      } else {
        turn := SingleTurn(t, subs, i, p, es, r, q);
      }
      if turn.Turn? {
        var r1 := Loop(t, turn.mid, turn.next, DesigAt(es, turn.k), es[turn.k..]);
        var q1 := Read(t, Scalars(t, Members(turn.mid)), Before(t, turn.next), DesigAt(es, turn.k), es[turn.k..],
                       false);
        ListIsRead(t, turn.mid, turn.next, DesigAt(es, turn.k), es[turn.k..], r1, q1);
        AgreesOn(t, turn.k, r1, q1, es, r, q);
      }
    }
  }

  lemma AgreesOn(t: Type, k: nat, r1: Outcomes, q1: Reading, es: seq<Entry>, r: Outcomes, q: Reading)
    requires Agrees(t, r1, q1) && 1 <= k <= |es| && r == Continued(k, r1) && q == Plus(k, q1)
    requires IsNext(r1, DesigAt(es, k), es[k..])
    ensures Agrees(t, r, q) && (r.DoneAll? ==> r.taken >= 1 && r.left == DesigAt(es, r.taken))
  {}

  lemma ListStops(t: Type, subs: seq<Tree>, i: nat, p: seq<Desig>, es: seq<Entry>)
    requires !t.Scalar? && i <= Count(t) && p == [] && (es == [] || i == Count(t))
    ensures Loop(t, subs, i, p, es) == DoneAll(subs, 0, [])
    ensures Read(t, Scalars(t, Members(subs)), Before(t, i), p, es, false) == Reading(Scalars(t, Members(subs)), 0)
  {
    Total(t, i);
    ScalarsLength(t, Members(subs));
  }

  // ---- Lists of expressions ------------------------------------------------------------------------------------

  predicate AllSingle(es: seq<Entry>) {
    forall i :: 0 <= i < |es| ==> es[i].item.Single?
  }

  predicate AllValid(t: Type, es: seq<Entry>) {
    forall i :: 0 <= i < |es| ==> Valid(t, es[i].desig)
  }

  /** The scalar that an item of a list sets. */
  function Address(t: Type, cursor: nat, es: seq<Entry>, m: nat): nat
    requires AllValid(t, es) && m < |es|
  {
    if es[m].desig != [] then Offset(t, es[m].desig)
    else if m == 0 then cursor
    else Address(t, cursor, es, m - 1) + 1
  }

  lemma {:induction false} LaterAddress(t: Type, cursor: nat, es: seq<Entry>, m: nat)
    requires AllValid(t, es) && 0 < m < |es|
    ensures Address(t, cursor, es, m) == Address(t, Address(t, cursor, es, 0) + 1, es[1..], m - 1)
  {
    if es[m].desig == [] && m > 1 { LaterAddress(t, cursor, es, m - 1); }
  }

  /** `v` is set by the last of the first `n` items that sets the scalar `k`, or is `was` if none does. */
  ghost predicate LastSet(t: Type, cursor: nat, es: seq<Entry>, n: nat, k: nat, was: int, v: int)
    requires AllSingle(es) && AllValid(t, es) && n <= |es|
  {
    || (v == was && forall m :: 0 <= m < n ==> Address(t, cursor, es, m) != k)
    || exists m :: 0 <= m < n && IsLast(t, cursor, es, n, k, m) && v == es[m].item.v
  }

  ghost predicate IsLast(t: Type, cursor: nat, es: seq<Entry>, n: nat, k: nat, m: nat)
    requires AllValid(t, es) && m < n <= |es|
  {
    Address(t, cursor, es, m) == k && forall l :: m < l < n ==> Address(t, cursor, es, l) != k
  }

  /** Every scalar holds what the last item that sets it says, and keeps its value if none does; items are taken
      until one would set a scalar beyond the end. */
  lemma LastWriteWins(t: Type, s: seq<int>, cursor: nat, es: seq<Entry>, inC: bool)
    requires !t.Scalar? && NonEmpty(t) && |s| == ScalarCount(t) && AllSingle(es) && AllValid(t, es)
    ensures var q := Read(t, s, cursor, DesigAt(es, 0), es, inC);
            q.Reading? && Won(t, s, cursor, es, q.taken, q.s)
  {
    Wins(t, s, cursor, es, Read(t, s, cursor, DesigAt(es, 0), es, inC), inC);
  }

  lemma {:induction false} Wins(t: Type, s: seq<int>, cursor: nat, es: seq<Entry>, q: Reading, inC: bool)
    requires !t.Scalar? && NonEmpty(t) && |s| == ScalarCount(t) && AllSingle(es) && AllValid(t, es)
    requires q == Read(t, s, cursor, DesigAt(es, 0), es, inC)
    ensures q.Reading? && Won(t, s, cursor, es, q.taken, q.s)
    decreases |es|
  {
    if es != [] && Address(t, cursor, es, 0) < |s| {
      var at := Address(t, cursor, es, 0);
      var s1, next := s[at := es[0].item.v], at + 1;
      FirstSet(t, s, cursor, es, at, s1, next, inC);
      var q1 := Read(t, s1, next, DesigAt(es[1..], 0), es[1..], inC);
      Wins(t, s1, next, es[1..], q1, inC);
      WonLater(t, s, cursor, es, q.taken, q.s, s1, next, q1.taken);
    } else if es != [] && es[0].desig != [] {
      OffsetInside(t, es[0].desig);
    }
  }

  lemma FirstSet(t: Type, s: seq<int>, cursor: nat, es: seq<Entry>, at: nat, s1: seq<int>, next: nat, inC: bool)
    requires !t.Scalar? && AllSingle(es) && AllValid(t, es) && es != [] && at == Address(t, cursor, es, 0) < |s|
    requires s1 == s[at := es[0].item.v] && next == at + 1
    ensures Read(t, s, cursor, DesigAt(es, 0), es, inC) ==
            Plus(1, Read(t, s1, next, DesigAt(es[1..], 0), es[1..], inC))
  {
    var v := es[0].item.v;
    assert Over(s, at, [v]) == s1;
    assert Effect(t, cursor, DesigAt(es, 0), es[0].item, inC) == Change(at, [v], next);
    ReadFirst(t, s, cursor, DesigAt(es, 0), es, inC, Change(at, [v], next));
    assert DesigAt(es[1..], 0) == DesigAt(es, 1);
  }

  /** `n` items are taken, and each scalar is as the last of them says that sets it. */
  ghost predicate Won(t: Type, s: seq<int>, cursor: nat, es: seq<Entry>, n: nat, after: seq<int>)
    requires AllSingle(es) && AllValid(t, es)
  {
    && n <= |es| && |after| == |s|
    && (n < |es| ==> Address(t, cursor, es, n) >= |s|)
    && (forall m :: 0 <= m < n ==> Address(t, cursor, es, m) < |s|)
    && (forall k :: 0 <= k < |s| ==> LastSet(t, cursor, es, n, k, s[k], after[k]))
  }

  lemma WonLater(t: Type, s: seq<int>, cursor: nat, es: seq<Entry>, n: nat, after: seq<int>, s1: seq<int>, next: nat,
                 n1: nat)
    requires AllSingle(es) && AllValid(t, es) && es != [] && n == 1 + n1 && Address(t, cursor, es, 0) + 1 == next <= |s|
    requires s1 == s[next - 1 := es[0].item.v] && Won(t, s1, next, es[1..], n1, after)
    ensures Won(t, s, cursor, es, n, after)
  {
    forall m | 0 < m < |es| ensures Address(t, cursor, es, m) == Address(t, next, es[1..], m - 1) {
      LaterAddress(t, cursor, es, m);
    }
    forall k | 0 <= k < |s| ensures LastSet(t, cursor, es, n, k, s[k], after[k]) {
      assert LastSet(t, next, es[1..], n1, k, s1[k], after[k]);
      LastSetLater(t, cursor, es, n, k, s[k], after[k]);
    }
  }

  lemma LastSetLater(t: Type, cursor: nat, es: seq<Entry>, n: nat, k: nat, was: int, v: int)
    requires AllSingle(es) && AllValid(t, es) && 1 <= n <= |es|
    requires var at := Address(t, cursor, es, 0);
             LastSet(t, at + 1, es[1..], n - 1, k, if k == at then es[0].item.v else was, v)
    ensures LastSet(t, cursor, es, n, k, was, v)
  {
    var at := Address(t, cursor, es, 0);
    forall m | 0 < m < |es| ensures Address(t, cursor, es, m) == Address(t, at + 1, es[1..], m - 1) {
      LaterAddress(t, cursor, es, m);
    }
    if m :| 0 <= m < n - 1 && IsLast(t, at + 1, es[1..], n - 1, k, m) && v == es[1..][m].item.v {
      assert IsLast(t, cursor, es, n, k, m + 1);
    } else if k == at {
      assert IsLast(t, cursor, es, n, k, 0);
    }
  }
}
