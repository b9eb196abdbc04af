/** The hash table of src/util/dynmap.c on the heap: 256 embedded head pairs, each with a linked chain. */
module DynmapTable {
  import opened Common
  import opened Arithmetic
  import opened DynmapSpec

  /** struct pair; a head pair without a key is an empty chain. */
  class Pair<K, V> {
    var key: Option<K>
    var value: Option<V>
    var next: Pair?<K, V>
    /** The bucket this pair belongs to. */
    ghost var home: nat

    constructor (ghost home: nat)
      ensures key == None && value == None && next == null && this.home == home
    {
      key, value, next, this.home := None, None, null, home;
    }

    constructor Filled(home: BucketNo, key: K, value: Option<V>)
      ensures this.home == home && this.key == Some(key) && this.value == value && next == null
    {
      this.home := home;
      this.key, this.value, next := Some(key), value, null;
    }
  }

  function Nth<K, V>(c: seq<Pair<K, V>>, i: nat): Pair?<K, V> {
    if i < |c| then c[i] else null
  }

  class Dynmap<K(==, !new), V> {
    const hash: K -> nat
    /** The heads, embedded in the table: they never move. */
    const pairs: seq<Pair<K, V>>
    /** The pairs of each chain, the entries they hold, and the map that the table stands for. */
    ghost var chains: seq<seq<Pair<K, V>>>
    ghost var lists: Lists<K, V>
    ghost var m: map<K, Option<V>>
    /** All pairs of the table. */
    ghost var repr: set<Pair<K, V>>

    ghost function BucketOf(): K -> BucketNo {
      k => Squash(hash(k))
    }

    ghost predicate NodeOk(b: nat, i: nat)
      requires b < |chains| && b < |lists| && i < |chains[b]|
      reads this, repr
    {
      var c, l := chains[b], lists[b];
      && c[i] in repr && c[i].home == b
      && c[i].next == Nth(c, i + 1)
      && (if i < |l| then c[i].key == Some(l[i].0) && c[i].value == l[i].1 else c[i].key == None)
    }

    ghost predicate ChainOk(b: nat)
      requires b < |chains| && b < |lists| && b < |pairs|
      reads this, repr
    {
      var c, l := chains[b], lists[b];
      && |c| == (if l == [] then 1 else |l|)
      && c[0] == pairs[b]
      && forall i :: 0 <= i < |c| ==> NodeOk(b, i)
    }

    ghost predicate Linked()
      reads this, repr
    {
      && |pairs| == |chains| == |lists| == HASH_TBL_CNT
      && forall b :: 0 <= b < HASH_TBL_CNT ==> ChainOk(b)
    }

    ghost predicate Valid()
      reads this, repr
    {
      Linked() && Models(lists, BucketOf(), m)
    }

    /** The pairs of a chain, which are distinct. */
    ghost predicate IsChain(b: nat)
      requires b < |chains|
      reads this, repr
    {
      && (forall i, j :: 0 <= i < j < |chains[b]| ==> chains[b][i] != chains[b][j])
      && (forall i :: 0 <= i < |chains[b]| ==> chains[b][i] in repr && chains[b][i].home == b)
    }

    constructor (hash: K -> nat)
      ensures Valid() && m == map[] && this.hash == hash
      ensures fresh(repr)
    {
      var ps: seq<Pair<K, V>> := [];
      var b := 0;
      while b < HASH_TBL_CNT
        invariant b == |ps| <= HASH_TBL_CNT
        invariant forall i :: 0 <= i < b ==>
          fresh(ps[i]) && ps[i].home == i && ps[i].key == None && ps[i].next == null
      {
        var p := new Pair<K, V>(b);
        ps := ps + [p];
        b := b + 1;
      }
      this.hash := hash;
      pairs := ps;
      chains := seq(HASH_TBL_CNT, i requires 0 <= i < HASH_TBL_CNT => [ps[i]]);
      lists := seq(HASH_TBL_CNT, _ => []);
      m := map[];
      repr := set p | p in ps;
      new;
      forall c | 0 <= c < HASH_TBL_CNT ensures ChainOk(c) {
        assert NodeOk(c, 0);
      }
    }

    /** dynmap_first_pair */
    method FirstPair(hash: nat) returns (p: Pair<K, V>, b: BucketNo)
      requires Linked()
      ensures b == Squash(hash) && p == pairs[b]
    {
      var h := hash;
      while h >= 256
        invariant Squash(h) == Squash(hash)
        decreases h
      {
        h := BitXor(h / 256, h % 256);
      }
      b := h;
      p := pairs[b];
    }

    /** dynmap_nochk_pair: the pair of `key`, or null. */
    method FindPair(key: K) returns (p: Pair?<K, V>, b: BucketNo)
      requires Linked()
      ensures b == BucketOf()(key) && ChainOk(b)
      ensures p == if Find(lists[b], key) < |lists[b]| then chains[b][Find(lists[b], key)] else null
    {
      p, b := FirstPair(hash(key));
      ghost var k := 0;
      assert ChainOk(b);
      while p != null && p.key.Some?
        invariant k <= |chains[b]| && p == Nth(chains[b], k)
        invariant k <= Find(lists[b], key)
        decreases |chains[b]| - k
      {
        assert NodeOk(b, k);
        if p.key.value == key { return; }
        p := p.next;
        k := k + 1;
      }
      if p != null { assert NodeOk(b, k); }
      p := null;
    }

    /** dynmap_nochk_get: null both for a missing key and for a stored null. */
    method Get(key: K) returns (r: Option<V>)
      requires Valid()
      ensures r == if key in m then m[key] else None
    {
      var p, b := FindPair(key);
      if p == null { return None; }
      assert NodeOk(b, Find(lists[b], key));
      r := p.value;
    }

    /** dynmap_nochk_exists */
    method Exists(key: K) returns (r: bool)
      requires Valid()
      ensures r == (key in m)
    {
      var p, b := FindPair(key);
      r := p != null;
    }

    /** The pairs of a chain are distinct: their keys are. */
    lemma Distinct(b: nat)
      requires Valid() && b < HASH_TBL_CNT
      ensures ChainOk(b) && IsChain(b)
    {
      assert ChainOk(b) && Hashed(lists[b], b, BucketOf());
      forall i | 0 <= i < |chains[b]| ensures chains[b][i].home == b && chains[b][i] in repr {
        assert NodeOk(b, i);
      }
      forall i, j | 0 <= i < j < |chains[b]| ensures chains[b][i] != chains[b][j] {
        assert NodeOk(b, i) && NodeOk(b, j);
      }
    }

    /** Only the chain of bucket `b` has been touched. */
    twostate predicate Kept(b: nat)
      reads this, repr
    {
      && |chains| == |lists| == HASH_TBL_CNT && old(|chains| == |lists| == HASH_TBL_CNT)
      && (forall c :: 0 <= c < HASH_TBL_CNT && c != b ==> chains[c] == old(chains[c]) && lists[c] == old(lists[c]))
      && old(repr) <= repr
      && (forall n :: n in old(repr) && old(n.home) != b ==> Same(n))
    }

    twostate predicate Same(n: Pair<K, V>)
      reads n
    {
      n.key == old(n.key) && n.value == old(n.value) && n.next == old(n.next) && n.home == old(n.home)
    }

    /** If the touched chain is in order, so is the table. */
    twostate lemma OthersUnchanged(b: nat)
      requires old(Linked()) && b < HASH_TBL_CNT && Kept(b) && ChainOk(b)
      ensures Linked()
    {
      forall c | 0 <= c < HASH_TBL_CNT ensures ChainOk(c) {
        if c != b {
          assert old(ChainOk(c));
          forall i | 0 <= i < |chains[c]| ensures NodeOk(c, i) {
            assert old(NodeOk(c, i));
            assert Same(chains[c][i]);
          }
        }
      }
    }

    /** dynmap_nochk_set, as an operation on the map. */
    method Set(key: K, val: Option<V>) returns (was: Option<V>)
      requires Valid()
      modifies this, repr
      ensures Valid() && m == old(m)[key := val]
      ensures was == if key in old(m) then old(m)[key] else None
      ensures fresh(repr - old(repr))
    {
      ghost var b := BucketOf()(key);
      PutModels(lists, BucketOf(), m, key, val);
      Distinct(b);
      was := SetEntry(key, val);
    }

    /** dynmap_nochk_set */
    method SetEntry(key: K, val: Option<V>) returns (was: Option<V>)
      requires Linked() && IsChain(BucketOf()(key))
      modifies this, repr
      ensures Linked() && m == old(m)[key := val]
      ensures var b := BucketOf()(key); lists == old(lists)[b := Put(old(lists)[b], key, val)]
      ensures var l := old(lists)[BucketOf()(key)];
              was == if Find(l, key) < |l| then l[Find(l, key)].1 else None
      ensures fresh(repr - old(repr))
    {
      var p, b := FindPair(key);
      was := None;
      if p != null {
        was := SetPair(p, key, val, b);
      } else {
        p := pairs[b];
        assert NodeOk(b, 0);
        if p.key.Some? {
          HangPair(p, key, val, b);
        } else {
          FillHead(p, key, val, b);
        }
      }
      OthersUnchanged(b);
    }

    /** Replace the value of the pair found for a key. */
    method SetPair(p: Pair<K, V>, key: K, val: Option<V>, b: BucketNo) returns (was: Option<V>)
      requires Linked() && IsChain(b) && Find(lists[b], key) < |lists[b]| && ChainOk(b)
      requires p == chains[b][Find(lists[b], key)]
      modifies this, repr
      ensures m == old(m)[key := val] && repr == old(repr) && Kept(b) && ChainOk(b)
      ensures lists == old(lists)[b := Put(old(lists)[b], key, val)]
      ensures was == old(lists)[b][Find(old(lists)[b], key)].1
    {
      ghost var i := Find(lists[b], key);
      assert NodeOk(b, i);
      was := p.value;
      p.value := val;
      m, lists := m[key := val], lists[b := Put(lists[b], key, val)];
      forall j | 0 <= j < |chains[b]| ensures NodeOk(b, j) {
        assert old(NodeOk(b, j));
      }
    }

    /** Put the first entry of a bucket into its head. */
    method FillHead(p: Pair<K, V>, key: K, val: Option<V>, b: BucketNo)
      requires Linked() && IsChain(b) && Find(lists[b], key) == |lists[b]| && ChainOk(b)
      requires p == pairs[b] && p.key.None?
      modifies this, repr
      ensures m == old(m)[key := val] && repr == old(repr) && Kept(b) && ChainOk(b)
      ensures lists == old(lists)[b := Put(old(lists)[b], key, val)]
    {
      assert NodeOk(b, 0);
      p.key := Some(key);
      p.value := val;
      m, lists := m[key := val], lists[b := Put(lists[b], key, val)];
      assert NodeOk(b, 0);
    }

    /** Walk to the end of a chain. */
    method LastPair(head: Pair<K, V>, b: BucketNo) returns (p: Pair<K, V>)
      requires Linked() && IsChain(b) && ChainOk(b) && head == pairs[b]
      ensures p == chains[b][|chains[b]| - 1]
    {
      p := head;
      ghost var k := 0;
      while p.next != null
        invariant k < |chains[b]| && p == chains[b][k]
        decreases |chains[b]| - k
      {
        assert NodeOk(b, k);
        p := p.next;
        k := k + 1;
      }
      assert NodeOk(b, k);
    }

    /** Hang a pair for a new key on the end of a chain. */
    method HangPair(head: Pair<K, V>, key: K, val: Option<V>, b: BucketNo)
      requires Linked() && IsChain(b) && Find(lists[b], key) == |lists[b]| && ChainOk(b)
      requires head == pairs[b] && head.key.Some?
      modifies this, repr
      ensures m == old(m)[key := val] && fresh(repr - old(repr)) && Kept(b) && ChainOk(b)
      ensures lists == old(lists)[b := Put(old(lists)[b], key, val)]
    {
      assert NodeOk(b, 0);
      var p := LastPair(head, b);
      ghost var c := chains[b];
      var n := new Pair<K, V>.Filled(b, key, val);
      p.next := n;
      chains, repr := chains[b := c + [n]], repr + {n};
      m, lists := m[key := val], lists[b := Put(lists[b], key, val)];
      assert NodeOk(b, |c|);
      forall j | 0 <= j < |c| ensures NodeOk(b, j) {
        assert old(NodeOk(b, j));
      }
    }

    /** dynmap_nochk_rm, as an operation on the map. */
    method Rm(key: K) returns (was: Option<V>)
      requires Valid()
      modifies this, repr
      ensures Valid() && m == old(m) - {key}
      ensures was == if key in old(m) then old(m)[key] else None
      ensures repr <= old(repr)
    {
      ghost var b := BucketOf()(key);
      DropModels(lists, BucketOf(), m, key);
      Distinct(b);
      was := RmEntry(key);
    }

    /** dynmap_nochk_rm: a head pair is removed by copying its successor over it. */
    method RmEntry(key: K) returns (was: Option<V>)
      requires Linked() && IsChain(BucketOf()(key))
      modifies this, repr
      ensures Linked() && m == old(m) - {key} && repr == old(repr)
      ensures var b := BucketOf()(key); lists == old(lists)[b := Drop(old(lists)[b], key)]
      ensures var l := old(lists)[BucketOf()(key)];
              was == if Find(l, key) < |l| then l[Find(l, key)].1 else None
    {
      var p, b := FindPair(key);
      was := None;
      if p == null {
        assert lists[b := Drop(lists[b], key)] == lists;
        m := m - {key};
        forall c | 0 <= c < HASH_TBL_CNT ensures ChainOk(c) {
          assert old(ChainOk(c));
          forall i | 0 <= i < |chains[c]| ensures NodeOk(c, i) { assert old(NodeOk(c, i)); }
        }
        return;
      }
      was := p.value;
      assert NodeOk(b, Find(lists[b], key));
      if p == pairs[b] {
        RmHead(p, key, b);
      } else {
        RmLater(p, key, b);
      }
      OthersUnchanged(b);
    }

    method RmHead(first: Pair<K, V>, key: K, b: BucketNo)
      requires Linked() && IsChain(b) && ChainOk(b) && Find(lists[b], key) < |lists[b]|
      requires first == pairs[b] == chains[b][Find(lists[b], key)]
      modifies this, repr
      ensures m == old(m) - {key} && repr == old(repr) && Kept(b) && ChainOk(b)
      ensures lists == old(lists)[b := Drop(old(lists)[b], key)]
    {
      ghost var c := chains[b];
      assert NodeOk(b, 0) && Find(lists[b], key) == 0;
      if first.next != null {
        var n := first.next;
        assert NodeOk(b, 1);
        first.key, first.value, first.next := n.key, n.value, n.next;
        chains := chains[b := [first] + c[2..]];
      } else {
        first.key, first.value, first.next := None, None, null;
      }
      m, lists := m - {key}, lists[b := Drop(lists[b], key)];
      forall j | 0 <= j < |chains[b]| ensures NodeOk(b, j) {
        if |c| > 1 { assert old(NodeOk(b, j + 1)); }
      }
    }

    method RmLater(p: Pair<K, V>, key: K, b: BucketNo)
      requires Linked() && IsChain(b) && ChainOk(b) && Find(lists[b], key) < |lists[b]|
      requires p == chains[b][Find(lists[b], key)] && p != pairs[b]
      modifies this, repr
      ensures m == old(m) - {key} && repr == old(repr) && Kept(b) && ChainOk(b)
      ensures lists == old(lists)[b := Drop(old(lists)[b], key)]
    {
      ghost var c, k := chains[b], Find(lists[b], key);
      var i := BeforePair(p, b, k);
      assert NodeOk(b, k - 1) && NodeOk(b, k);
      i.next := p.next;
      chains := chains[b := c[..k] + c[k + 1..]];
      m, lists := m - {key}, lists[b := Drop(lists[b], key)];
      forall j | 0 <= j < |chains[b]| ensures NodeOk(b, j) {
        assert old(NodeOk(b, if j < k then j else j + 1));
      }
    }

    /** Find the pair before `p` in its chain. */
    method BeforePair(p: Pair<K, V>, b: BucketNo, ghost k: nat) returns (i: Pair<K, V>)
      requires Linked() && IsChain(b) && ChainOk(b) && 0 < k < |chains[b]| && p == chains[b][k]
      ensures i == chains[b][k - 1]
    {
      i := pairs[b];
      ghost var j := 0;
      assert NodeOk(b, 0);
      while i.next != p
        invariant j < k && i == chains[b][j] && i.next == chains[b][j + 1]
        decreases k - j
      {
        i := i.next;
        j := j + 1;
        assert NodeOk(b, j);
      }
    }

    /** dynmap_nochk_idx: the pair at a position, counting over the chains in order. */
    method Idx(at: int) returns (p: Pair?<K, V>)
      requires Valid()
      ensures var e := Entries(lists, 0);
              if 0 <= at < |e| then p != null && p.key == Some(e[at].0) && p.value == e[at].1 else p == null
    {
      var left := at;
      var i := 0;
      while i < HASH_TBL_CNT
        invariant i <= HASH_TBL_CNT
        invariant at >= 0 ==> left >= 0 && at == |Entries(lists, 0)| - |Entries(lists, i)| + left
        invariant at >= 0 && left < |Entries(lists, i)| ==> Entries(lists, 0)[at] == Entries(lists, i)[left]
        invariant at < 0 ==> left < 0
      {
        p, left := IdxIn(i, left);
        if p != null { return; }
        i := i + 1;
      }
      p := null;
    }

    /** The loop over one chain: the pair, or how many are still to be passed. */
    method IdxIn(b: nat, at: int) returns (p: Pair?<K, V>, left: int)
      requires Valid() && b < HASH_TBL_CNT
      ensures if 0 <= at < |lists[b]| then p != null && p.key == Some(lists[b][at].0) && p.value == lists[b][at].1
              else p == null && if at < 0 then left < 0 else left == at - |lists[b]|
    {
      p, left := pairs[b], at;
      ghost var k := 0;
      assert ChainOk(b);
      while p != null
        invariant k <= |chains[b]| && p == Nth(chains[b], k)
        invariant if at >= 0 then left >= 0 && left == at - (if k <= |lists[b]| then k else |lists[b]|) else left < 0
        decreases |chains[b]| - k
      {
        assert NodeOk(b, k);
        if p.key.Some? {
          if left == 0 { return; }
          left := left - 1;
        }
        p := p.next;
        k := k + 1;
      }
    }
  }
}
