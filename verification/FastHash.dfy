/** The kernel's hash map: chained buckets, masked hashes, doubling, and removal by swapping with the last entry. */
module FastHash {
  import opened Bytes
  import opened Bits

  const INITIAL_BUCKETS: nat := 16

  datatype Entry<K, V> = Entry(hash: nat, key: K, value: V)

  type Buckets<K, V> = seq<seq<Entry<K, V>>>

  /** `bucket_index`. */
  function Index(hash: nat, count: nat): (i: nat)
    requires count > 0
    ensures i < count
  {
    And(hash, count - 1)
  }

  function Total<K, V>(bs: Buckets<K, V>): nat {
    if bs == [] then 0 else Total(bs[..|bs| - 1]) + |bs[|bs| - 1]|
  }

  // --- what the buckets represent ---

  /** Entry i of bucket b carries its key's hash, sits where that hash masks to, and agrees with m. */
  ghost predicate Placed<K, V>(hash: K -> nat, bs: Buckets<K, V>, m: map<K, V>, b: nat, i: nat)
    requires b < |bs| && i < |bs[b]|
  {
    var e := bs[b][i];
    e.hash == hash(e.key) && Index(e.hash, |bs|) == b && e.key in m && m[e.key] == e.value
  }

  ghost predicate Has<K, V>(bucket: seq<Entry<K, V>>, k: K) { exists i :: 0 <= i < |bucket| && bucket[i].key == k }

  ghost predicate Distinct<K, V>(bucket: seq<Entry<K, V>>) {
    forall i, j :: 0 <= i < j < |bucket| ==> bucket[i].key != bucket[j].key
  }

  /** The buckets hold exactly the pairs of m, each key once and in its own bucket. */
  ghost predicate Rep<K, V>(hash: K -> nat, bs: Buckets<K, V>, m: map<K, V>) {
    |bs| > 0 &&
    (forall b, i :: 0 <= b < |bs| && 0 <= i < |bs[b]| ==> Placed(hash, bs, m, b, i)) &&
    (forall b :: 0 <= b < |bs| ==> Distinct(bs[b])) &&
    (forall k :: k in m ==> Has(bs[Index(hash(k), |bs|)], k)) &&
    Total(bs) == |m|
  }

  lemma {:induction false} TotalUpdate<K, V>(bs: Buckets<K, V>, b: nat, bucket: seq<Entry<K, V>>)
    requires b < |bs|
    ensures Total(bs[b := bucket]) == Total(bs) - |bs[b]| + |bucket|
    decreases |bs|
  {
    var n := |bs| - 1;
    if b < n {
      TotalUpdate(bs[..n], b, bucket);
      assert bs[b := bucket][..n] == bs[..n][b := bucket];
    } else {
      assert bs[b := bucket][..n] == bs[..n];
    }
  }

  lemma {:induction false} TotalEmpty<K, V>(bs: Buckets<K, V>)
    requires forall b :: 0 <= b < |bs| ==> bs[b] == []
    ensures Total(bs) == 0
    decreases |bs|
  {
    if bs != [] { TotalEmpty(bs[..|bs| - 1]); }
  }

  /** Only a key's own bucket can hold it. */
  lemma OwnBucket<K, V>(hash: K -> nat, bs: Buckets<K, V>, m: map<K, V>, b: nat, i: nat)
    requires Rep(hash, bs, m) && b < |bs| && i < |bs[b]|
    ensures b == Index(hash(bs[b][i].key), |bs|) && bs[b][i].hash == hash(bs[b][i].key)
    ensures bs[b][i].key in m && m[bs[b][i].key] == bs[b][i].value
  {
    assert Placed(hash, bs, m, b, i);
  }

  // --- one bucket changes ---

  lemma PushRep<K, V>(hash: K -> nat, bs: Buckets<K, V>, m: map<K, V>, k: K, v: V)
    requires Rep(hash, bs, m) && k !in m
    ensures var b := Index(hash(k), |bs|); Rep(hash, bs[b := bs[b] + [Entry(hash(k), k, v)]], m[k := v])
  {
    hide Index, Total;
    var b := Index(hash(k), |bs|);
    var bucket := bs[b] + [Entry(hash(k), k, v)];
    var bs', m' := bs[b := bucket], m[k := v];
    TotalUpdate(bs, b, bucket);
    forall c, i | 0 <= c < |bs'| && 0 <= i < |bs'[c]| ensures Placed(hash, bs', m', c, i) {
      if c != b || i < |bs[b]| { OwnBucket(hash, bs, m, c, i); }
    }
    forall c | 0 <= c < |bs'| ensures Distinct(bs'[c]) {
      assert Distinct(bs[c]);
      if c == b {
        forall i | 0 <= i < |bs[b]| ensures bs[b][i].key != k { OwnBucket(hash, bs, m, b, i); }
      }
    }
    forall x | x in m' ensures Has(bs'[Index(hash(x), |bs'|)], x) {
      var c := Index(hash(x), |bs|);
      if x == k {
        assert bucket[|bucket| - 1].key == k;
      } else {
        assert Has(bs[c], x);
        var i :| 0 <= i < |bs[c]| && bs[c][i].key == x;
        assert bs'[c][i].key == x;
      }
    }
  }

  lemma ReplaceRep<K, V>(hash: K -> nat, bs: Buckets<K, V>, m: map<K, V>, b: nat, i: nat, v: V)
    requires Rep(hash, bs, m) && b < |bs| && i < |bs[b]|
    ensures var e := bs[b][i]; Rep(hash, bs[b := bs[b][i := e.(value := v)]], m[e.key := v])
  {
    hide Index, Total;
    var e := bs[b][i];
    OwnBucket(hash, bs, m, b, i);
    var bucket := bs[b][i := e.(value := v)];
    var bs', m' := bs[b := bucket], m[e.key := v];
    TotalUpdate(bs, b, bucket);
    forall c, j | 0 <= c < |bs'| && 0 <= j < |bs'[c]| ensures Placed(hash, bs', m', c, j) {
      OwnBucket(hash, bs, m, c, j);
      assert Distinct(bs[c]);
    }
    forall c | 0 <= c < |bs'| ensures Distinct(bs'[c]) { assert Distinct(bs[c]); }
    forall x | x in m' ensures Has(bs'[Index(hash(x), |bs'|)], x) {
      var c := Index(hash(x), |bs|);
      assert Has(bs[c], x);
      var j :| 0 <= j < |bs[c]| && bs[c][j].key == x;
      assert bs'[c][j].key == x;
    }
    assert m'.Keys == m.Keys;
    SameSize(m, m');
  }

  lemma SameSize<K, V>(m: map<K, V>, m': map<K, V>)
    requires m.Keys == m'.Keys
    ensures |m| == |m'|
  {
    assert |m| == |m.Keys| && |m'| == |m'.Keys|;
  }

  /** `swap_remove`. */
  function SwapRemove<T>(s: seq<T>, i: nat): (r: seq<T>)
    requires i < |s|
    ensures |r| == |s| - 1
  {
    s[i := s[|s| - 1]][..|s| - 1]
  }

  lemma RemoveRep<K, V>(hash: K -> nat, bs: Buckets<K, V>, m: map<K, V>, b: nat, i: nat)
    requires Rep(hash, bs, m) && b < |bs| && i < |bs[b]|
    ensures Rep(hash, bs[b := SwapRemove(bs[b], i)], m - {bs[b][i].key})
  {
    hide Index, Total;
    var k, n := bs[b][i].key, |bs[b]| - 1;
    OwnBucket(hash, bs, m, b, i);
    var bucket := SwapRemove(bs[b], i);
    var bs', m' := bs[b := bucket], m - {k};
    TotalUpdate(bs, b, bucket);
    forall c, j | 0 <= c < |bs'| && 0 <= j < |bs'[c]| ensures Placed(hash, bs', m', c, j) {
      assert Distinct(bs[c]);
      OwnBucket(hash, bs, m, c, if c == b && j == i then n else j);
    }
    forall c | 0 <= c < |bs'| ensures Distinct(bs'[c]) { assert Distinct(bs[c]); }
    forall x | x in m' ensures Has(bs'[Index(hash(x), |bs'|)], x) {
      var c := Index(hash(x), |bs|);
      assert Has(bs[c], x);
      var j :| 0 <= j < |bs[c]| && bs[c][j].key == x;
      assert bs'[c][if c == b && j == n then i else j].key == x;
    }
    assert m.Keys == m'.Keys + {k};
    assert |m| == |m.Keys| && |m'| == |m'.Keys|;
  }

  class KernelFastMap<K(==), V> {
    const hash: K -> nat
    var buckets: Buckets<K, V>
    var len: nat
    ghost var contents: map<K, V>

    ghost predicate Valid()
      reads this
    {
      len == |contents| &&
      if buckets == [] then contents == map[]
      else Rep(hash, buckets, contents) && IsPow2(|buckets|) && 4 * len <= 3 * |buckets|
    }

    constructor (hash: K -> nat)
      ensures Valid() && contents == map[] && this.hash == hash
    {
      this.hash := hash;
      buckets, len, contents := [], 0, map[];
    }

    /** The search of one bucket. */
    static method Position(bucket: seq<Entry<K, V>>, h: nat, key: K) returns (r: Option<nat>)
      ensures r.Some? ==> r.value < |bucket| && bucket[r.value].hash == h && bucket[r.value].key == key
      ensures r.None? ==> forall i :: 0 <= i < |bucket| ==> !(bucket[i].hash == h && bucket[i].key == key)
    {
      for i := 0 to |bucket|
        invariant forall j :: 0 <= j < i ==> !(bucket[j].hash == h && bucket[j].key == key)
      {
        if bucket[i].hash == h && bucket[i].key == key {
          return Some(i);
        }
      }
      r := None;
    }

    /** The key's own bucket knows whether the map has it. */
    method Locate(key: K) returns (b: nat, r: Option<nat>)
      requires Valid() && buckets != []
      ensures b == Index(hash(key), |buckets|)
      ensures r.None? <==> key !in contents
      ensures r.Some? ==> r.value < |buckets[b]| && buckets[b][r.value].key == key && buckets[b][r.value].value == contents[key]
    {
      hide Index, Total;
      b := Index(hash(key), |buckets|);
      r := Position(buckets[b], hash(key), key);
      if r.Some? {
        OwnBucket(hash, buckets, contents, b, r.value);
      } else if key in contents {
        assert Has(buckets[b], key);
        var i :| 0 <= i < |buckets[b]| && buckets[b][i].key == key;
        OwnBucket(hash, buckets, contents, b, i);
        assert false;
      }
    }

    /** `get`. */
    method Get(key: K) returns (r: Option<V>)
      requires Valid()
      ensures r == if key in contents then Some(contents[key]) else None
    {
      if buckets == [] {
        return None;
      }
      var b, i := Locate(key);
      r := if i.None? then None else Some(buckets[b][i.value].value);
    }

    /** `allocate_buckets`. */
    static method Allocate(count: nat) returns (bs: Buckets<K, V>)
      ensures |bs| == count && forall b :: 0 <= b < count ==> bs[b] == []
    {
      bs := [];
      for i := 0 to count
        invariant |bs| == i && forall b :: 0 <= b < i ==> bs[b] == []
      {
        bs := bs + [[]];
      }
    }

    /** The rehash: the same pairs, over twice the buckets. */
    static method Rehash(hash: K -> nat, old': Buckets<K, V>, ghost m: map<K, V>) returns (bs: Buckets<K, V>)
      requires Rep(hash, old', m)
      ensures |bs| == 2 * |old'| && Rep(hash, bs, m)
    {
      hide Index, Total, Rep;
      RepNonempty(hash, old', m);
      bs := Allocate(2 * |old'|);
      ghost var done: map<K, V> := map[];
      EmptyRep(hash, bs);
      for b := 0 to |old'|
        invariant |bs| == 2 * |old'| && Rep(hash, bs, done) && Moved(old', m, done, b, 0)
      {
        var bucket := old'[b];
        for i := 0 to |bucket|
          invariant |bs| == 2 * |old'| && Rep(hash, bs, done) && Moved(old', m, done, b, i)
        {
          var e := bucket[i];
          OwnBucket(hash, old', m, b, i);
          PushRep(hash, bs, done, e.key, e.value);
          MovedStep(hash, old', m, done, b, i);
          var idx := Index(e.hash, |bs|);
          bs := bs[idx := bs[idx] + [e]];
          done := done[e.key := e.value];
        }
        MovedBucket(old', m, done, b);
      }
      MovedAll(hash, old', m, done);
    }

    /** `ensure_capacity_for_insert`: room for one more, and the same map. */
    method EnsureCapacity()
      requires Valid()
      modifies this`buckets
      ensures Valid() && buckets != [] && 4 * (len + 1) <= 3 * |buckets|
    {
      hide Index, Total, Rep;
      if buckets == [] {
        buckets := Allocate(INITIAL_BUCKETS);
        EmptyRep(hash, buckets);
        assert IsPow2(8) && IsPow2(16);
        return;
      }
      if 4 * (len + 1) <= 3 * |buckets| {
        return;
      }
      assert IsPow2(2 * |buckets|);
      buckets := Rehash(hash, buckets, contents);
    }

    /** `insert`. */
    method Insert(key: K, value: V) returns (r: Option<V>)
      requires Valid()
      modifies this
      ensures Valid() && contents == old(contents)[key := value]
      ensures r == if key in old(contents) then Some(old(contents)[key]) else None
    {
      hide Index, Total, Rep;
      EnsureCapacity();
      var b, i := Locate(key);
      if i.Some? {
        var e := buckets[b][i.value];
        ReplaceRep(hash, buckets, contents, b, i.value, value);
        r := Some(e.value);
        buckets := buckets[b := buckets[b][i.value := e.(value := value)]];
        contents := contents[key := value];
        assert contents.Keys == old(contents).Keys;
        SameSize(old(contents), contents);
        return;
      }
      PushRep(hash, buckets, contents, key, value);
      buckets := buckets[b := buckets[b] + [Entry(hash(key), key, value)]];
      contents := contents[key := value];
      len := len + 1;
      r := None;
    }

    /** `remove`. */
    method Remove(key: K) returns (r: Option<V>)
      requires Valid()
      modifies this
      ensures Valid() && contents == old(contents) - {key}
      ensures r == if key in old(contents) then Some(old(contents)[key]) else None
    {
      hide Index, Total, Rep;
      if buckets == [] {
        return None;
      }
      var b, i := Locate(key);
      if i.None? {
        assert contents - {key} == contents;
        return None;
      }
      RemoveRep(hash, buckets, contents, b, i.value);
      r := Some(buckets[b][i.value].value);
      buckets := buckets[b := SwapRemove(buckets[b], i.value)];
      assert contents.Keys == (contents - {key}).Keys + {key};
      len := len - 1;
      contents := contents - {key};
    }
  }

  lemma RepNonempty<K, V>(hash: K -> nat, bs: Buckets<K, V>, m: map<K, V>)
    requires Rep(hash, bs, m)
    ensures |bs| > 0
  {
  }

  lemma EmptyRep<K, V>(hash: K -> nat, bs: Buckets<K, V>)
    requires bs != [] && forall b :: 0 <= b < |bs| ==> bs[b] == []
    ensures Rep(hash, bs, map[])
  {
    TotalEmpty(bs);
  }

  /** The entries before position (b, i) are in done, those from there on are not, and done holds nothing else. */
  ghost predicate Moved<K, V>(bs: Buckets<K, V>, m: map<K, V>, done: map<K, V>, b: nat, i: nat) {
    (forall k :: k in done ==> k in m && done[k] == m[k]) &&
    forall c, j :: 0 <= c < |bs| && 0 <= j < |bs[c]| ==> (bs[c][j].key in done <==> c < b || (c == b && j < i))
  }

  lemma MovedStep<K, V>(hash: K -> nat, bs: Buckets<K, V>, m: map<K, V>, done: map<K, V>, b: nat, i: nat)
    requires Rep(hash, bs, m) && b < |bs| && i < |bs[b]| && Moved(bs, m, done, b, i)
    ensures bs[b][i].key !in done && Moved(bs, m, done[bs[b][i].key := bs[b][i].value], b, i + 1)
  {
    hide Index, Total;
    var e := bs[b][i];
    OwnBucket(hash, bs, m, b, i);
    var done' := done[e.key := e.value];
    forall c, j | 0 <= c < |bs| && 0 <= j < |bs[c]| ensures bs[c][j].key in done' <==> c < b || (c == b && j < i + 1) {
      OwnBucket(hash, bs, m, c, j);
      assert Distinct(bs[c]);
    }
  }

  lemma MovedBucket<K, V>(bs: Buckets<K, V>, m: map<K, V>, done: map<K, V>, b: nat)
    requires b < |bs| && Moved(bs, m, done, b, |bs[b]|)
    ensures Moved(bs, m, done, b + 1, 0)
  {
  }

  lemma MovedAll<K, V>(hash: K -> nat, bs: Buckets<K, V>, m: map<K, V>, done: map<K, V>)
    requires Rep(hash, bs, m) && Moved(bs, m, done, |bs|, 0)
    ensures done == m
  {
    hide Index, Total;
    forall k | k in m ensures k in done {
      var c := Index(hash(k), |bs|);
      assert Has(bs[c], k);
      var i :| 0 <= i < |bs[c]| && bs[c][i].key == k;
    }
  }
}
