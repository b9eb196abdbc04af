/** The hash table of src/util/dynmap.c: association lists by bucket, as values. */
module DynmapSpec {
  import opened Common
  import opened Arithmetic

  const HASH_TBL_CNT := 256

  /** dynmap_first_pair: squash all the bits of a hash together until it is a bucket number; shifting
      right by 8 is dividing by 256, and masking with 255 is the remainder. */
  function Squash(hash: nat): (r: BucketNo)
    ensures r < 256 && (hash < 256 ==> r == hash)
  {
    if hash < 256 then hash else Squash(BitXor(hash / 256, hash % 256))
  }

  /** The bucket of a hash of two bytes is their exclusive or. */
  lemma TwoBytes(high: nat, low: nat)
    requires high < 256 && low < 256
    ensures Squash(256 * high + low) == BitXor(high, low)
  {
    assert PowerOfTwo(2) && PowerOfTwo(4) && PowerOfTwo(8) && PowerOfTwo(16) && PowerOfTwo(32) && PowerOfTwo(64);
    assert PowerOfTwo(128) && PowerOfTwo(256);
    BitsBelow(high, low, 256);
    var hash := 256 * high + low;
    assert hash / 256 == high && hash % 256 == low;
    if high == 0 { ZeroXor(low); }
  }

  lemma {:induction false} ZeroXor(n: nat)
    ensures BitXor(0, n) == n
  {
    if n > 0 { ZeroXor(n / 2); }
  }

  /** The numbers of the buckets. */
  type BucketNo = b: nat | b < HASH_TBL_CNT

  /** A key and its value; None is a stored null pointer. */
  type Entry<K, V> = (K, Option<V>)

  /** The contents of the table, bucket by bucket. */
  type Lists<K, V> = seq<seq<Entry<K, V>>>

  /** The position of `key` in a chain, or its length. */
  function Find<K(==), V>(list: seq<Entry<K, V>>, key: K): (i: nat)
    ensures i <= |list|
    ensures i < |list| ==> list[i].0 == key
    ensures forall j :: 0 <= j < i ==> list[j].0 != key
  {
    if list == [] || list[0].0 == key then 0 else 1 + Find(list[1..], key)
  }

  function Put<K(==), V>(list: seq<Entry<K, V>>, key: K, val: Option<V>): seq<Entry<K, V>> {
    var i := Find(list, key);
    if i < |list| then list[i := (key, val)] else list + [(key, val)]
  }

  function Drop<K(==), V>(list: seq<Entry<K, V>>, key: K): seq<Entry<K, V>> {
    var i := Find(list, key);
    if i < |list| then list[..i] + list[i + 1..] else list
  }

  /** No key occurs twice in a chain, and each is in the bucket of its hash. */
  ghost predicate Hashed<K(!new), V>(list: seq<Entry<K, V>>, b: nat, bucket: K -> BucketNo) {
    && (forall i :: 0 <= i < |list| ==> bucket(list[i].0) == b)
    && (forall i, j :: 0 <= i < j < |list| ==> list[i].0 != list[j].0)
  }

  ghost predicate AllHashed<K(!new), V>(lists: Lists<K, V>, bucket: K -> BucketNo) {
    |lists| == HASH_TBL_CNT && forall b :: 0 <= b < HASH_TBL_CNT ==> Hashed(lists[b], b, bucket)
  }

  /** The table holds the finite map `m`. */
  ghost predicate Models<K(!new), V>(lists: Lists<K, V>, bucket: K -> BucketNo, m: map<K, Option<V>>) {
    && AllHashed(lists, bucket)
    && (forall k :: k in m <==> Find(lists[bucket(k)], k) < |lists[bucket(k)]|)
    && (forall k :: k in m ==> Lookup(lists, bucket, k) == m[k])
  }

  /** The value of a key that is in the table. */
  function Lookup<K(==, !new), V>(lists: Lists<K, V>, bucket: K -> BucketNo, key: K): Option<V>
    requires |lists| == HASH_TBL_CNT
    requires Find(lists[bucket(key)], key) < |lists[bucket(key)]|
  {
    var list := lists[bucket(key)];
    list[Find(list, key)].1
  }

  lemma PutFinds<K(!new), V>(list: seq<Entry<K, V>>, key: K, val: Option<V>, k: K)
    ensures var r := Put(list, key, val);
            if k == key then Find(r, k) < |r| && r[Find(r, k)].1 == val
            else (Find(r, k) < |r| <==> Find(list, k) < |list|) &&
                 (Find(r, k) < |r| ==> r[Find(r, k)] == list[Find(list, k)])
  {
    var r := Put(list, key, val);
    var i := Find(list, key);
    if k == key {
      assert r[i].0 == key;
    } else {
      var a, b := Find(r, k), Find(list, k);
      if b < |list| { assert r[b].0 == k; }
      if a < |r| { assert a < |list| && list[a].0 == k; }
    }
  }

  lemma DropFinds<K(!new), V>(list: seq<Entry<K, V>>, key: K, k: K)
    requires forall i, j :: 0 <= i < j < |list| ==> list[i].0 != list[j].0
    ensures var r := Drop(list, key);
            if k == key then Find(r, k) == |r|
            else (Find(r, k) < |r| <==> Find(list, k) < |list|) &&
                 (Find(r, k) < |r| ==> r[Find(r, k)] == list[Find(list, k)])
  {
    var r := Drop(list, key);
    var i, a, b := Find(list, key), Find(r, k), Find(list, k);
    if i < |list| {
      assert forall j :: 0 <= j < |r| ==> r[j] == if j < i then list[j] else list[j + 1];
      if b < |list| && k != key {
        assert r[if b < i then b else b - 1].0 == k;
      }
      if a < |r| {
        assert list[if a < i then a else a + 1].0 == k;
      }
    }
  }

  lemma PutHashed<K(!new), V>(list: seq<Entry<K, V>>, b: nat, bucket: K -> BucketNo, key: K, val: Option<V>)
    requires Hashed(list, b, bucket) && bucket(key) == b
    ensures Hashed(Put(list, key, val), b, bucket)
  {}

  lemma DropHashed<K(!new), V>(list: seq<Entry<K, V>>, b: nat, bucket: K -> BucketNo, key: K)
    requires Hashed(list, b, bucket)
    ensures Hashed(Drop(list, key), b, bucket)
  {}

  /** Setting a key in its chain is setting it in the map. */
  lemma PutModels<K(!new), V>(lists: Lists<K, V>, bucket: K -> BucketNo, m: map<K, Option<V>>, key: K, val: Option<V>)
    requires Models(lists, bucket, m)
    ensures var b := bucket(key);
            Models(lists[b := Put(lists[b], key, val)], bucket, m[key := val])
  {
    var b := bucket(key);
    var lists' := lists[b := Put(lists[b], key, val)];
    PutHashed(lists[b], b, bucket, key, val);
    forall k ensures (k in m[key := val] <==> Find(lists'[bucket(k)], k) < |lists'[bucket(k)]|)
      ensures k in m[key := val] ==> Lookup(lists', bucket, k) == m[key := val][k]
    {
      PutFinds(lists[b], key, val, k);
    }
  }

  /** Removing a key from its chain is removing it from the map. */
  lemma DropModels<K(!new), V>(lists: Lists<K, V>, bucket: K -> BucketNo, m: map<K, Option<V>>, key: K)
    requires Models(lists, bucket, m)
    ensures var b := bucket(key);
            Models(lists[b := Drop(lists[b], key)], bucket, m - {key})
  {
    var b := bucket(key);
    var lists' := lists[b := Drop(lists[b], key)];
    DropHashed(lists[b], b, bucket, key);
    forall k ensures (k in m - {key} <==> Find(lists'[bucket(k)], k) < |lists'[bucket(k)]|)
      ensures k in m - {key} ==> Lookup(lists', bucket, k) == (m - {key})[k]
    {
      DropFinds(lists[b], key, k);
    }
  }

  // ---- Enumeration -----------------------------------------------------------------------------

  /** All entries from bucket `b` on, in the order in which dynmap_nochk_idx counts them. */
  function Entries<K, V>(lists: Lists<K, V>, b: nat): seq<Entry<K, V>>
    requires b <= |lists|
    decreases |lists| - b
  {
    if b == |lists| then [] else lists[b] + Entries(lists, b + 1)
  }

  /** An entry of the table whose bucket is `b` or a later one. */
  ghost predicate Placed<K(!new), V>(lists: Lists<K, V>, bucket: K -> BucketNo, b: nat, x: Entry<K, V>)
    requires |lists| == HASH_TBL_CNT
  {
    bucket(x.0) >= b && x in lists[bucket(x.0)]
  }

  ghost predicate KeysDiffer<K, V>(e: seq<Entry<K, V>>) {
    forall i, j :: 0 <= i < j < |e| ==> e[i].0 != e[j].0
  }

  lemma {:induction false} EntriesAreHashed<K(!new), V>(lists: Lists<K, V>, bucket: K -> BucketNo, b: nat)
    requires AllHashed(lists, bucket) && b <= |lists|
    ensures forall x :: x in Entries(lists, b) ==> Placed(lists, bucket, b, x)
    ensures KeysDiffer(Entries(lists, b))
    decreases |lists| - b
  {
    if b < |lists| {
      EntriesAreHashed(lists, bucket, b + 1);
      var here, more := lists[b], Entries(lists, b + 1);
      assert Hashed(here, b, bucket);
      forall x | x in here ensures bucket(x.0) == b {
        var i :| 0 <= i < |here| && here[i] == x;
      }
      var e := here + more;
      forall x | x in e ensures Placed(lists, bucket, b, x) {
        if x !in here { assert Placed(lists, bucket, b + 1, x); }
      }
      forall i, j | 0 <= i < j < |e| ensures e[i].0 != e[j].0 {
        if i < |here| <= j {
          assert e[i] in here && e[j] in more && Placed(lists, bucket, b + 1, e[j]);
        }
      }
    }
  }

  lemma {:induction false} EntriesHold<K(!new), V>(lists: Lists<K, V>, b: nat, c: nat, i: nat)
    requires b <= c < |lists| && i < |lists[c]|
    ensures lists[c][i] in Entries(lists, b)
    decreases |lists| - b
  {
    var more := Entries(lists, b + 1);
    if b < c {
      EntriesHold(lists, b + 1, c, i);
      assert lists[c][i] in more;
    } else {
      assert lists[c][i] in lists[b];
    }
    assert forall x :: x in lists[b] || x in more ==> x in lists[b] + more;
  }

  /** Counting by index visits every entry of the map exactly once. */
  lemma EntriesEnumerate<K(!new), V>(lists: Lists<K, V>, bucket: K -> BucketNo, m: map<K, Option<V>>)
    requires Models(lists, bucket, m)
    ensures var e := Entries(lists, 0);
            && |e| == |m|
            && (forall i :: 0 <= i < |e| ==> e[i].0 in m && m[e[i].0] == e[i].1)
            && (forall i, j :: 0 <= i < j < |e| ==> e[i].0 != e[j].0)
            && (forall k :: k in m ==> (k, m[k]) in e)
  {
    var e := Entries(lists, 0);
    EntriesAreHashed(lists, bucket, 0);
    forall i | 0 <= i < |e| ensures e[i].0 in m && m[e[i].0] == e[i].1 {
      var b := bucket(e[i].0);
      assert Hashed(lists[b], b, bucket);
      assert Placed(lists, bucket, 0, e[i]);
      var j :| 0 <= j < |lists[b]| && lists[b][j] == e[i];
      assert Find(lists[b], e[i].0) == j;
    }
    forall k | k in m ensures (k, m[k]) in e {
      var b := bucket(k);
      EntriesHold(lists, 0, b, Find(lists[b], k));
    }
    CountKeys(e, m);
  }

  lemma {:induction false} CountKeys<K(!new), V>(e: seq<Entry<K, V>>, m: map<K, Option<V>>)
    requires forall i :: 0 <= i < |e| ==> e[i].0 in m && m[e[i].0] == e[i].1
    requires forall i, j :: 0 <= i < j < |e| ==> e[i].0 != e[j].0
    requires forall k :: k in m ==> (k, m[k]) in e
    ensures |e| == |m|
    decreases |e|
  {
    if e == [] {
      assert m == map[];
    } else {
      var last := e[|e| - 1];
      var rest := e[..|e| - 1];
      var m' := m - {last.0};
      forall k | k in m' ensures (k, m'[k]) in rest {
        var i :| 0 <= i < |e| && e[i] == (k, m[k]);
        assert i < |rest| && rest[i] == e[i];
      }
      CountKeys(rest, m');
      assert m == m'[last.0 := last.1];
    }
  }
}
