/** Where normalising lists with designators and braces is what C says. */
module DesigStandard {
  import opened Common
  import opened InitSyntax
  import opened InitOrder
  import opened DesigSyntax
  import opened DesigScalars
  import opened DesigBraces
  import opened DesigOrder

  /** The item after this one does not go on from it. */
  predicate NoneFollows(es: seq<Entry>) {
    |es| <= 1 || es[1].desig != []
  }

  /** What the first designator names is zero but for what all of them designate. */
  predicate RestIsZero(t: Type, s: seq<int>, p: seq<Desig>)
    requires p != [] && Valid(t, p)
  {
    var from, to := Offset(t, p), Offset(t, p) + ScalarCount(Designated(t, p));
    forall k :: Before(t, p[0].i) <= k < Before(t, p[0].i + 1) && k < |s| && !(from <= k < to) ==> s[k] == 0
  }

  /** A list behind designators designates the last part of what the first of them names, or is followed by another
      designated item; and if it is empty, what that holds besides is zero. */
  predicate SmoothItem(t: Type, s: seq<int>, cursor: nat, p: seq<Desig>, item: Item, follows: bool)
    requires !t.Scalar?
    decreases item, 0
  {
    match item
    case Single(_) => true
    case Braced(list) =>
      if p == [] then SmoothList(Outer(t, cursor), list)
      else if !Valid(t, p) then list != [] || |p| == 1
      else
        && (follows ==> Trailing(Sub(t, p[0].i), p[1..]))
        && (if list == [] then RestIsZero(t, s, p) else SmoothList(Designated(t, p), list))
  }

  /** So is every list within it, and every item after it, as C reads them. */
  predicate Smooth(t: Type, s: seq<int>, cursor: nat, p: seq<Desig>, es: seq<Entry>)
    requires !t.Scalar?
    decreases es, 1
  {
    es == [] || (p == [] && cursor >= |s|) ||
    (SmoothItem(t, s, cursor, p, es[0].item, !NoneFollows(es))
     && match Effect(t, cursor, p, es[0].item, true)
        case NoChange => true
        case Change(at, own, next) => Smooth(t, Over(s, at, own), next, DesigAt(es, 1), es[1..]))
  }

  predicate SmoothList(t: Type, list: seq<Entry>)
    decreases list, 2
  {
    if list == [] then true
    else if t.Scalar? then list[0].item.Braced? ==> SmoothList(Scalar, list[0].item.entries)
    else Smooth(t, Zeros(ScalarCount(t)), 0, list[0].desig, list)
  }

  /** What the source makes of an item, and what C does. */
  ghost predicate SameChange(s: seq<int>, c: Change, d: Change, follows: bool) {
    if c.NoChange? || d.NoChange? then c.NoChange? && d.NoChange?
    else Over(s, c.at, c.own) == Over(s, d.at, d.own) && (follows ==> c.next == d.next)
  }

  lemma {:induction false} ItemSame(t: Type, s: seq<int>, cursor: nat, p: seq<Desig>, item: Item, follows: bool)
    requires !t.Scalar? && NonEmpty(t) && |s| == ScalarCount(t) && SmoothItem(t, s, cursor, p, item, follows)
    requires p == [] ==> cursor < |s|
    ensures SameChange(s, Effect(t, cursor, p, item, false), Effect(t, cursor, p, item, true), follows)
    decreases item, 0
  {
    if item.Braced? {
      if p == [] {
        OuterFits(t, cursor);
        ListSame(Outer(t, cursor), item.entries);
      } else if Valid(t, p) {
        GoesOnAfterDesignatedIff(t, p);
        if item.entries == [] {
          EmptySame(t, s, cursor, p, follows);
        } else {
          DesignatedFits(t, p);
          ListSame(Designated(t, p), item.entries);
        }
      } else {
        if |p| == 1 { SinglePath(t, p); }
      }
    }
  }

  lemma SinglePath(t: Type, p: seq<Desig>)
    requires !t.Scalar? && |p| == 1
    ensures Valid(t, p) <==> Matches(t, p[0])
  {
    assert p[1..] == [];
    if Matches(t, p[0]) { assert Valid(Sub(t, p[0].i), p[1..]); }
  }

  lemma EmptySame(t: Type, s: seq<int>, cursor: nat, p: seq<Desig>, follows: bool)
    requires !t.Scalar? && NonEmpty(t) && |s| == ScalarCount(t) && p != [] && Valid(t, p) && RestIsZero(t, s, p)
    requires follows ==> Before(t, p[0].i + 1) == Offset(t, p) + ScalarCount(Designated(t, p))
    ensures SameChange(s, Effect(t, cursor, p, Braced([]), false), Effect(t, cursor, p, Braced([]), true), follows)
  {
    var j := p[0].i;
    PartNonEmpty(t, j);
    GoesOnAfterDesignatedIff(t, p);
    ZerosSame(s, Before(t, j), ScalarCount(Sub(t, j)), Offset(t, p), ScalarCount(Designated(t, p)));
  }

  /** Zeros over a range and over a part of it, if the rest is zero. */
  lemma ZerosSame(s: seq<int>, from: nat, m: nat, at: nat, n: nat)
    requires from <= at && at + n <= from + m <= |s|
    requires forall k :: from <= k < from + m && k < |s| && !(at <= k < at + n) ==> s[k] == 0
    ensures Over(s, from, Zeros(m)) == Over(s, at, Zeros(n))
  {
    var a, b := Over(s, from, Zeros(m)), Over(s, at, Zeros(n));
    forall k | 0 <= k < |s| ensures a[k] == b[k] {
      if from <= k < from + m { assert a[k] == Zeros(m)[k - from]; }
      if at <= k < at + n { assert b[k] == Zeros(n)[k - at]; }
    }
  }

  /** Then the source reads the list as C does. */
  lemma {:induction false} ReadSame(t: Type, s: seq<int>, cursor: nat, p: seq<Desig>, es: seq<Entry>)
    requires !t.Scalar? && NonEmpty(t) && |s| == ScalarCount(t) && Smooth(t, s, cursor, p, es)
    ensures Read(t, s, cursor, p, es, false) == Read(t, s, cursor, p, es, true)
    decreases es, 1
  {
    if !(es == [] || (p == [] && cursor >= |s|)) {
      var c, d := Effect(t, cursor, p, es[0].item, false), Effect(t, cursor, p, es[0].item, true);
      ItemSame(t, s, cursor, p, es[0].item, !NoneFollows(es));
      ReadFirst(t, s, cursor, p, es, false, c);
      ReadFirst(t, s, cursor, p, es, true, d);
      if d.Change? {
        var s1 := Over(s, d.at, d.own);
        ReadSame(t, s1, d.next, DesigAt(es, 1), es[1..]);
        SameCursor(t, s1, c.next, if NoneFollows(es) then d.next else c.next, DesigAt(es, 1), es[1..], false);
      }
    }
  }

  lemma {:induction false} ListSame(t: Type, list: seq<Entry>)
    requires NonEmpty(t) && SmoothList(t, list)
    ensures ListValue(t, list, false) == ListValue(t, list, true)
    decreases list, 2
  {
    if list != [] {
      if !t.Scalar? {
        ReadSame(t, Zeros(ScalarCount(t)), 0, list[0].desig, list);
      } else if list[0].item.Braced? {
        ListSame(Scalar, list[0].item.entries);
      }
    }
  }

  /** An object initialised by such a list in braces is what C says, with designators and braces nested to any depth. */
  lemma BracedMeetsC(t: Type, cur: Tree, e: Entry)
    requires NonEmpty(t) && e.item.Braced? && SmoothList(t, e.item.entries)
    ensures ObjectAgrees(t, Normalise(t, cur, [], [e]), ListValue(t, e.item.entries, true))
  {
    ObjectIsRead(t, cur, e);
    ListSame(t, e.item.entries);
  }
}
