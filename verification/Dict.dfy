/** The hash table: buckets of entries, doubled when the load factor is exceeded. */
module Dicts {
  import opened Wrappers

  /** An entry, with its position in its bucket. */
  datatype Entry<K, V> = Entry(key: K, value: V, ix: nat)

  type Bucket<K, V> = seq<Entry<K, V>>

  const INIT_BUCKETS: nat := 4
  const LOAD_FACTOR: real := 0.75

  /** All entries, bucket after bucket: the order in which `dict_reduce` visits them. */
  function Flat<K, V>(buckets: seq<Bucket<K, V>>): Bucket<K, V> {
    if buckets == [] then [] else buckets[0] + Flat(buckets[1..])
  }

  lemma {:induction false} FlatConcat<K, V>(a: seq<Bucket<K, V>>, b: seq<Bucket<K, V>>)
    ensures Flat(a + b) == Flat(a) + Flat(b)
  {
    if a == [] {
      assert a + b == b;
    } else {
      assert (a + b)[1..] == a[1..] + b;
      FlatConcat(a[1..], b);
    }
  }

  lemma FlatSplit<K, V>(buckets: seq<Bucket<K, V>>, b: nat)
    requires b < |buckets|
    ensures Flat(buckets) == Flat(buckets[..b]) + buckets[b] + Flat(buckets[b + 1..])
  {
    assert buckets == buckets[..b] + buckets[b..];
    FlatConcat(buckets[..b], buckets[b..]);
    assert buckets[b..][1..] == buckets[b + 1..];
  }

  lemma FlatUpdate<K, V>(buckets: seq<Bucket<K, V>>, b: nat, bucket: Bucket<K, V>)
    requires b < |buckets|
    ensures |Flat(buckets[b := bucket])| == |Flat(buckets)| - |buckets[b]| + |bucket|
  {
    var new_ := buckets[b := bucket];
    FlatSplit(buckets, b);
    FlatSplit(new_, b);
    assert new_[..b] == buckets[..b] && new_[b + 1..] == buckets[b + 1..];
  }

  // ---------- one bucket ----------

  ghost predicate HasKey<K, V>(bucket: Bucket<K, V>, key: K) {
    exists i :: 0 <= i < |bucket| && bucket[i].key == key
  }

  ghost predicate Numbered<K, V>(bucket: Bucket<K, V>) {
    forall i :: 0 <= i < |bucket| ==> bucket[i].ix == i
  }

  ghost predicate DistinctKeys<K, V>(bucket: Bucket<K, V>) {
    forall i, j :: 0 <= i < j < |bucket| ==> bucket[i].key != bucket[j].key
  }

  /** The position of the entry for `key`, -1 if there is none. */
  method BucketFindEntry<K(==), V>(bucket: Bucket<K, V>, key: K) returns (ix: int)
    ensures -1 <= ix < |bucket|
    ensures if ix >= 0 then bucket[ix].key == key else !HasKey(bucket, key)
  {
    var i := 0;
    while i < |bucket|
      invariant 0 <= i <= |bucket| && forall j :: 0 <= j < i ==> bucket[j].key != key
    {
      if bucket[i].key == key { return i; }
      i := i + 1;
    }
    return -1;
  }

  /** Overwrites the value for `key`, or appends an entry. Tells how many entries were added. */
  method BucketPut<K(==), V>(bucket: Bucket<K, V>, key: K, value: V) returns (bucket': Bucket<K, V>, added: nat)
    ensures HasKey(bucket, key) ==> added == 0 && exists i :: 0 <= i < |bucket| && bucket[i].key == key
                                                    && bucket' == bucket[i := bucket[i].(value := value)]
    ensures !HasKey(bucket, key) ==> added == 1 && bucket' == bucket + [Entry(key, value, |bucket|)]
  {
    var ix := BucketFindEntry(bucket, key);
    if ix >= 0 {
      bucket', added := bucket[ix := bucket[ix].(value := value)], 0;
    } else {
      bucket', added := bucket + [Entry(key, value, |bucket|)], 1;
    }
  }

  /** The bucket without entry `ix`, the later entries moved up and renumbered. */
  function Removed<K, V>(bucket: Bucket<K, V>, ix: nat): (r: Bucket<K, V>)
    requires ix < |bucket|
    ensures |r| == |bucket| - 1
  {
    seq(|bucket| - 1, i requires 0 <= i < |bucket| - 1 => if i < ix then bucket[i] else bucket[i + 1].(ix := i))
  }

  method BucketRemove<K, V>(bucket: Bucket<K, V>, ix: nat) returns (r: Bucket<K, V>)
    requires ix < |bucket|
    ensures r == Removed(bucket, ix)
  {
    r := bucket[..ix] + bucket[ix + 1..];
    var i := ix;
    while i < |r|
      invariant ix <= i <= |r| == |bucket| - 1
      invariant forall j :: 0 <= j < i ==> r[j] == Removed(bucket, ix)[j]
      invariant forall j :: i <= j < |r| ==> r[j] == bucket[j + 1]
    {
      r := r[i := r[i].(ix := i)];
      i := i + 1;
    }
  }

  // ---------- rehashing ----------

  function Empties<K, V>(n: nat): seq<Bucket<K, V>> { seq(n, _ => []) }

  /** Buckets filled with `entries` one after the other, each at the end of the bucket its hash selects. */
  ghost function Distribute<K, V>(entries: Bucket<K, V>, n: nat, hash: K -> nat): (buckets: seq<Bucket<K, V>>)
    requires n > 0
    ensures |buckets| == n
  {
    if entries == [] then Empties(n)
    else
      var e := entries[|entries| - 1];
      var d := Distribute(entries[..|entries| - 1], n, hash);
      var h := hash(e.key) % n;
      d[h := d[h] + [e.(ix := |d[h]|)]]
  }

  /** The table represents `contents`: each entry is in the bucket its hash selects and knows its
      position, keys are unique, and the entries are those of the map. */
  ghost predicate Represents<K, V>(buckets: seq<Bucket<K, V>>, hash: K -> nat, contents: map<K, V>) {
    && (forall b, i :: 0 <= b < |buckets| && 0 <= i < |buckets[b]| ==> Placed(buckets, hash, contents, b, i))
    && (forall b :: 0 <= b < |buckets| ==> DistinctKeys(buckets[b]) && Numbered(buckets[b]))
    && (forall k :: k in contents ==> |buckets| > 0 && HasKey(buckets[hash(k) % |buckets|], k))
  }

  ghost predicate Placed<K, V>(buckets: seq<Bucket<K, V>>, hash: K -> nat, contents: map<K, V>, b: nat, i: nat)
    requires b < |buckets| && i < |buckets[b]|
  {
    var e := buckets[b][i];
    hash(e.key) % |buckets| == b && e.key in contents && contents[e.key] == e.value
  }

  ghost function MapOf<K, V>(entries: Bucket<K, V>): map<K, V> {
    if entries == [] then map[]
    else MapOf(entries[..|entries| - 1])[entries[|entries| - 1].key := entries[|entries| - 1].value]
  }

  lemma {:induction false} MapOfKeys<K, V>(entries: Bucket<K, V>, k: K)
    ensures k in MapOf(entries) <==> HasKey(entries, k)
  {
    if entries != [] {
      var init, last := entries[..|entries| - 1], entries[|entries| - 1];
      MapOfKeys(init, k);
      assert entries == init + [last];
      if HasKey(init, k) {
        var i :| 0 <= i < |init| && init[i].key == k;
        assert entries[i].key == k;
      }
      if HasKey(entries, k) {
        var i :| 0 <= i < |entries| && entries[i].key == k;
        if i < |init| { assert init[i].key == k; }
      }
    }
  }

  /** Distinct entries, distributed, represent the map of them. */
  lemma {:induction false} DistributeRepresents<K, V>(entries: Bucket<K, V>, n: nat, hash: K -> nat)
    requires n > 0 && DistinctKeys(entries)
    ensures Represents(Distribute(entries, n, hash), hash, MapOf(entries))
    ensures |Flat(Distribute(entries, n, hash))| == |entries|
  {
    if entries == [] {
      FlatEmpty<K, V>(n);
    } else {
      var init, e := entries[..|entries| - 1], entries[|entries| - 1];
      DistributeRepresents(init, n, hash);
      var d, h := Distribute(init, n, hash), hash(e.key) % n;
      MapOfKeys(init, e.key);
      FlatUpdate(d, h, d[h] + [e.(ix := |d[h]|)]);
      AppendRepresents(d, hash, MapOf(init), h, e.key, e.value);
    }
  }

  lemma {:induction false} FlatEmpty<K, V>(n: nat)
    ensures Flat(Empties<K, V>(n)) == []
  {
    if n > 0 {
      assert Empties<K, V>(n)[1..] == Empties<K, V>(n - 1);
      FlatEmpty<K, V>(n - 1);
    }
  }

  /** A new key goes to the end of its bucket. */
  lemma AppendRepresents<K, V>(buckets: seq<Bucket<K, V>>, hash: K -> nat, contents: map<K, V>, h: nat, key: K,
                               value: V)
    requires Represents(buckets, hash, contents) && |buckets| > 0 && h == hash(key) % |buckets| && key !in contents
    ensures Represents(buckets[h := buckets[h] + [Entry(key, value, |buckets[h]|)]], hash, contents[key := value])
  {
    var new_ := buckets[h := buckets[h] + [Entry(key, value, |buckets[h]|)]];
    var contents' := contents[key := value];
    forall b, i | 0 <= b < |new_| && 0 <= i < |new_[b]| ensures Placed(new_, hash, contents', b, i) {
      if i < |buckets[b]| { assert Placed(buckets, hash, contents, b, i); }
    }
    forall i | 0 <= i < |buckets[h]| ensures buckets[h][i].key != key { assert Placed(buckets, hash, contents, h, i); }
    forall k | k in contents' ensures HasKey(new_[hash(k) % |new_|], k) {
      var b := hash(k) % |new_|;
      if k == key {
        assert new_[h][|buckets[h]|].key == key;
      } else {
        var i :| 0 <= i < |buckets[b]| && buckets[b][i].key == k;
        assert new_[b][i].key == k;
      }
    }
  }

  /** The bucket and position of the `p`-th of all entries. */
  lemma {:induction false} Locate<K, V>(buckets: seq<Bucket<K, V>>, p: nat) returns (b: nat, i: nat)
    requires p < |Flat(buckets)|
    ensures b < |buckets| && i < |buckets[b]| && p == |Flat(buckets[..b])| + i && Flat(buckets)[p] == buckets[b][i]
  {
    if p < |buckets[0]| {
      b, i := 0, p;
    } else {
      var b', i' := Locate(buckets[1..], p - |buckets[0]|);
      b, i := b' + 1, i';
      assert buckets[..b][1..] == buckets[1..][..b'];
    }
  }

  lemma {:induction false} MapOfValue<K, V>(entries: Bucket<K, V>, i: nat)
    requires i < |entries| && DistinctKeys(entries)
    ensures entries[i].key in MapOf(entries) && MapOf(entries)[entries[i].key] == entries[i].value
  {
    if i < |entries| - 1 { MapOfValue(entries[..|entries| - 1], i); }
  }

  lemma MapsAgree<K, V>(m: map<K, V>, m': map<K, V>)
    requires forall k :: k in m <==> k in m'
    requires forall k :: k in m ==> m[k] == m'[k]
    ensures m == m'
  {
    assert m.Keys == m'.Keys;
  }

  lemma FlatDistinct<K, V>(buckets: seq<Bucket<K, V>>, hash: K -> nat, contents: map<K, V>)
    requires Represents(buckets, hash, contents)
    ensures DistinctKeys(Flat(buckets))
  {
    var flat := Flat(buckets);
    forall p, q | 0 <= p < q < |flat| ensures flat[p].key != flat[q].key {
      var b, i := Locate(buckets, p);
      var c, j := Locate(buckets, q);
      assert Placed(buckets, hash, contents, b, i) && Placed(buckets, hash, contents, c, j);
    }
  }

  lemma FlatHas<K, V>(buckets: seq<Bucket<K, V>>, hash: K -> nat, contents: map<K, V>, k: K)
    requires Represents(buckets, hash, contents)
    ensures k in contents <==> k in MapOf(Flat(buckets))
    ensures k in contents ==> contents[k] == MapOf(Flat(buckets))[k]
  {
    var flat := Flat(buckets);
    MapOfKeys(flat, k);
    if k in contents {
      var b := hash(k) % |buckets|;
      var i :| 0 <= i < |buckets[b]| && buckets[b][i].key == k;
      FlatSplit(buckets, b);
      assert flat[|Flat(buckets[..b])| + i].key == k;
    }
    if HasKey(flat, k) {
      var p :| 0 <= p < |flat| && flat[p].key == k;
      var b, i := Locate(buckets, p);
      PlacedIn(buckets, hash, contents, b, i);
      FlatDistinct(buckets, hash, contents);
      MapOfValue(flat, p);
    }
  }

  /** The entries of a table, bucket after bucket, are those of the map, each once. */
  lemma FlatIsContents<K, V>(buckets: seq<Bucket<K, V>>, hash: K -> nat, contents: map<K, V>)
    requires Represents(buckets, hash, contents)
    ensures DistinctKeys(Flat(buckets)) && MapOf(Flat(buckets)) == contents
  {
    hide Represents, Flat, MapOf;
    FlatDistinct(buckets, hash, contents);
    forall k
      ensures k in contents <==> k in MapOf(Flat(buckets))
      ensures k in contents ==> contents[k] == MapOf(Flat(buckets))[k]
    {
      FlatHas(buckets, hash, contents, k);
    }
    MapsAgree(contents, MapOf(Flat(buckets)));
  }

  lemma OverwriteRepresents<K, V>(buckets: seq<Bucket<K, V>>, hash: K -> nat, contents: map<K, V>, h: nat, ix: nat,
                                  value: V)
    requires Represents(buckets, hash, contents) && h < |buckets| && ix < |buckets[h]|
    ensures Represents(buckets[h := buckets[h][ix := buckets[h][ix].(value := value)]], hash,
                       contents[buckets[h][ix].key := value])
  {
    var key := buckets[h][ix].key;
    var new_ := buckets[h := buckets[h][ix := buckets[h][ix].(value := value)]];
    var contents' := contents[key := value];
    assert Placed(buckets, hash, contents, h, ix);
    forall b, i | 0 <= b < |new_| && 0 <= i < |new_[b]| ensures Placed(new_, hash, contents', b, i) {
      assert Placed(buckets, hash, contents, b, i);
    }
    forall k | k in contents' ensures HasKey(new_[hash(k) % |new_|], k) {
      var b := hash(k) % |new_|;
      var i :| 0 <= i < |buckets[b]| && buckets[b][i].key == k;
      assert new_[b][i].key == k;
    }
  }

  lemma RemoveRepresents<K, V>(buckets: seq<Bucket<K, V>>, hash: K -> nat, contents: map<K, V>, h: nat, ix: nat)
    requires Represents(buckets, hash, contents) && h < |buckets| && ix < |buckets[h]|
    ensures Represents(buckets[h := Removed(buckets[h], ix)], hash, contents - {buckets[h][ix].key})
  {
    var key := buckets[h][ix].key;
    var new_ := buckets[h := Removed(buckets[h], ix)];
    var contents' := contents - {key};
    assert Placed(buckets, hash, contents, h, ix);
    forall b, i | 0 <= b < |new_| && 0 <= i < |new_[b]| ensures Placed(new_, hash, contents', b, i) {
      var j := if b == h && i >= ix then i + 1 else i;
      assert Placed(buckets, hash, contents, b, j);
    }
    forall k | k in contents' ensures HasKey(new_[hash(k) % |new_|], k) {
      var b := hash(k) % |new_|;
      var i :| 0 <= i < |buckets[b]| && buckets[b][i].key == k;
      var j := if b == h && i > ix then i - 1 else i;
      assert new_[b][j].key == k;
    }
  }

  /** The same keys and values in the same order. */
  ghost predicate SamePairs<K, V>(a: Bucket<K, V>, b: Bucket<K, V>) {
    |a| == |b| && forall i :: 0 <= i < |a| ==> a[i].key == b[i].key && a[i].value == b[i].value
  }

  /** An entry for `key` is gone, and the others are in the order in which they were. */
  ghost predicate TakenOut<K, V>(before: Bucket<K, V>, after: Bucket<K, V>, key: K) {
    exists p :: 0 <= p < |before| && before[p].key == key && SamePairs(after, before[..p] + before[p + 1..])
  }

  lemma RemoveKeepsOrder<K, V>(buckets: seq<Bucket<K, V>>, h: nat, ix: nat)
    requires h < |buckets| && ix < |buckets[h]|
    ensures TakenOut(Flat(buckets), Flat(buckets[h := Removed(buckets[h], ix)]), buckets[h][ix].key)
  {
    var new_ := buckets[h := Removed(buckets[h], ix)];
    FlatSplit(buckets, h);
    FlatSplit(new_, h);
    assert new_[..h] == buckets[..h] && new_[h + 1..] == buckets[h + 1..];
    hide Flat;
    RemovedBetween(Flat(buckets[..h]), buckets[h], ix, Flat(buckets[h + 1..]));
  }

  lemma RemovedBetween<K, V>(a: Bucket<K, V>, bucket: Bucket<K, V>, ix: nat, b: Bucket<K, V>)
    requires ix < |bucket|
    ensures TakenOut(a + bucket + b, a + Removed(bucket, ix) + b, bucket[ix].key)
  {
    var all, p := a + bucket + b, |a| + ix;
    assert all[p] == bucket[ix];
    assert all[..p] + all[p + 1..] == a + (bucket[..ix] + bucket[ix + 1..]) + b;
  }

  lemma PlacedIn<K, V>(buckets: seq<Bucket<K, V>>, hash: K -> nat, contents: map<K, V>, h: nat, ix: nat)
    requires Represents(buckets, hash, contents) && h < |buckets| && ix < |buckets[h]|
    ensures Placed(buckets, hash, contents, h, ix)
  {}

  lemma KeyInBucket<K, V>(buckets: seq<Bucket<K, V>>, hash: K -> nat, contents: map<K, V>, key: K)
    requires Represents(buckets, hash, contents) && buckets != []
    ensures key in contents <==> HasKey(buckets[hash(key) % |buckets|], key)
  {
    var h := hash(key) % |buckets|;
    if HasKey(buckets[h], key) {
      var i :| 0 <= i < |buckets[h]| && buckets[h][i].key == key;
      assert Placed(buckets, hash, contents, h, i);
    }
  }

  /** Bucket counts grow from INIT_BUCKETS by doubling. */
  ghost predicate IsBucketCount(n: nat) {
    n == INIT_BUCKETS || (n > INIT_BUCKETS && n % 2 == 0 && IsBucketCount(n / 2))
  }

  lemma BucketCounts(n: nat)
    ensures IsBucketCount(INIT_BUCKETS) && (IsBucketCount(n) ==> n >= INIT_BUCKETS && IsBucketCount(2 * n))
  {}

  /** The load factor as a comparison of integers. */
  lemma LoadExceeded(size: nat, n: nat)
    requires n > 0
    ensures size as real / n as real > LOAD_FACTOR <==> 4 * size > 3 * n
  {
    var q := size as real / n as real;
    assert q * n as real == size as real;
    assert LOAD_FACTOR * n as real == (3 * n) as real / 4.0;
    if q > LOAD_FACTOR {
      assert q * n as real > LOAD_FACTOR * n as real;
    } else {
      assert q * n as real <= LOAD_FACTOR * n as real;
    }
  }

  function Pow2(p: nat): (n: nat)
    ensures n > 0
  {
    if p == 0 then 1 else 2 * Pow2(p - 1)
  }

  /** `x` has at most 24 significant binary digits, as a value of the type float; the range of the exponent is
      left out, since it is not exceeded below 2^31 buckets. */
  ghost predicate IsFloat(x: real) {
    exists m: nat, p: nat, e: nat :: IsScaled(x, m, p, e)
  }

  ghost predicate IsScaled(x: real, m: nat, p: nat, e: nat) {
    m <= 0x100_0000 && x * Pow2(p) as real == (m * Pow2(e)) as real
  }

  lemma {:induction false} BucketCountIsPower(n: nat) returns (p: nat)
    requires IsBucketCount(n)
    ensures n == Pow2(p)
  {
    if n == INIT_BUCKETS {
      p := 2;
      assert Pow2(2) == 2 * Pow2(1) && Pow2(1) == 2 * Pow2(0);
    } else {
      p := BucketCountIsPower(n / 2);
      p := p + 1;
    }
  }

  /** Nothing is rounded when the load is computed in the type float: with up to 2^24 entries both operands
      and their quotient are values of that type, because the number of buckets is a power of two. */
  lemma LoadIsFloat(size: nat, n: nat)
    requires IsBucketCount(n) && size <= 0x100_0000
    ensures n > 0 && IsFloat(size as real) && IsFloat(n as real) && IsFloat(size as real / n as real)
  {
    BucketCounts(n);
    var p := BucketCountIsPower(n);
    assert Pow2(0) == 1;
    assert IsScaled(size as real, size, 0, 0);
    assert IsScaled(n as real, 1, 0, p);
    assert IsScaled(size as real / n as real, size, p, 0);
  }

  class Dict<K(==), V> {
    const hash: K -> nat
    /** What `NULL` is among the values. */
    const nil: V
    var buckets: seq<Bucket<K, V>>
    var size: nat
    /** The map that the table stands for. */
    ghost var contents: map<K, V>

    ghost predicate Valid()
      reads this
    {
      && Represents(buckets, hash, contents)
      && size == |contents| == |Flat(buckets)|
      && (buckets == [] || IsBucketCount(|buckets|))
      && 4 * size <= 3 * |buckets|
    }

    constructor (hash: K -> nat, nil: V)
      ensures Valid() && contents == map[] && this.hash == hash && this.nil == nil
    {
      this.hash, this.nil := hash, nil;
      buckets, size, contents := [], 0, map[];
    }

    /** Puts the entries of an old bucket into the new buckets. */
    method RehashBucket(bucket: Bucket<K, V>, newBuckets: seq<Bucket<K, V>>, ghost done: Bucket<K, V>)
      returns (r: seq<Bucket<K, V>>)
      requires newBuckets != [] && newBuckets == Distribute(done, |newBuckets|, hash)
      ensures r == Distribute(done + bucket, |newBuckets|, hash)
    {
      r := newBuckets;
      assert done + bucket[..0] == done;
      var j := 0;
      while j < |bucket|
        invariant 0 <= j <= |bucket| && |r| == |newBuckets|
        invariant r == Distribute(done + bucket[..j], |newBuckets|, hash)
      {
        var entry: Entry<K, V> := bucket[j];
        var b := hash(entry.key) % |r|;
        r := r[b := r[b] + [entry.(ix := |r[b]|)]];
        ghost var next := done + bucket[..j + 1];
        assert next[..|next| - 1] == done + bucket[..j] && next[|next| - 1] == entry;
        j := j + 1;
      }
      assert bucket[..j] == bucket;
    }

    /** Doubles the number of buckets and puts every entry where its hash belongs now. */
    method Rehash()
      requires Valid()
      modifies this`buckets
      ensures Represents(buckets, hash, contents) && |Flat(buckets)| == |Flat(old(buckets))|
      ensures |buckets| == if old(buckets) == [] then INIT_BUCKETS else 2 * |old(buckets)|
      ensures buckets == Distribute(Flat(old(buckets)), |buckets|, hash)
    {
      hide Represents, Placed, IsBucketCount;
      var oldBuckets := buckets;
      var n := if oldBuckets == [] then INIT_BUCKETS else 2 * |oldBuckets|;
      buckets := Empties(n);
      var i := 0;
      while i < |oldBuckets|
        invariant 0 <= i <= |oldBuckets| && |buckets| == n
        invariant buckets == Distribute(Flat(oldBuckets[..i]), n, hash)
      {
        buckets := RehashBucket(oldBuckets[i], buckets, Flat(oldBuckets[..i]));
        FlatConcat(oldBuckets[..i], [oldBuckets[i]]);
        assert oldBuckets[..i + 1] == oldBuckets[..i] + [oldBuckets[i]];
        assert Flat([oldBuckets[i]]) == oldBuckets[i];
        i := i + 1;
      }
      assert oldBuckets[..i] == oldBuckets;
      FlatIsContents(oldBuckets, hash, contents);
      DistributeRepresents(Flat(oldBuckets), n, hash);
    }

    /** `dict_put`: after it the table is no more than three quarters full, so one doubling was enough. */
    method Put(key: K, value: V)
      requires Valid()
      modifies this
      ensures Valid() && contents == old(contents)[key := value]
      ensures |buckets| == |old(buckets)|
              || (&& 4 * (old(size) + 1) > 3 * |old(buckets)|
                  && |buckets| == if old(buckets) == [] then INIT_BUCKETS else 2 * |old(buckets)|)
    {
      hide Represents, Flat, Distribute, IsBucketCount;
      BucketCounts(|buckets|);
      var full := IsFull();
      if full {
        Rehash();
      }
      var added := AddToBucket(key, value);
      size := size + added;
      contents := contents[key := value];
    }

    /** Whether one more entry would exceed the load factor. */
    method IsFull() returns (full: bool)
      ensures full <==> buckets == [] || 4 * (size + 1) > 3 * |buckets|
    {
      if buckets == [] { return true; }
      LoadExceeded(size + 1, |buckets|);
      full := (size + 1) as real / |buckets| as real > LOAD_FACTOR;
    }

    /** Puts the pair into the bucket of its key. Tells how many entries were added. */
    method AddToBucket(key: K, value: V) returns (added: nat)
      requires Represents(buckets, hash, contents) && buckets != []
      modifies this`buckets
      ensures Represents(buckets, hash, contents[key := value]) && |buckets| == |old(buckets)|
      ensures added == (if key in contents then 0 else 1) && |Flat(buckets)| == |Flat(old(buckets))| + added
    {
      hide Represents;
      var h := hash(key) % |buckets|;
      var bucket: Bucket<K, V>;
      bucket, added := BucketPut(buckets[h], key, value);
      KeyInBucket(buckets, hash, contents, key);
      if HasKey(buckets[h], key) {
        ghost var i :| 0 <= i < |buckets[h]| && buckets[h][i].key == key
                       && bucket == buckets[h][i := buckets[h][i].(value := value)];
        OverwriteRepresents(buckets, hash, contents, h, i, value);
      } else {
        AppendRepresents(buckets, hash, contents, h, key, value);
      }
      FlatUpdate(buckets, h, bucket);
      buckets := buckets[h := bucket];
    }

    /** The position of the entry for `key` in its bucket. */
    method FindInBucket(key: K) returns (h: nat, ix: int)
      requires Valid() && size > 0
      ensures h < |buckets| && h == hash(key) % |buckets| && -1 <= ix < |buckets[h]|
      ensures ix >= 0 <==> key in contents
      ensures ix >= 0 ==> buckets[h][ix].key == key && contents[key] == buckets[h][ix].value
    {
      h := hash(key) % |buckets|;
      ix := BucketFindEntry(buckets[h], key);
      if ix >= 0 { assert Placed(buckets, hash, contents, h, ix); }
    }

    method Get(key: K) returns (value: V)
      requires Valid()
      ensures value == if key in contents then contents[key] else nil
    {
      value := nil;
      if size > 0 {
        var h, ix := FindInBucket(key);
        if ix >= 0 { value := buckets[h][ix].value; }
      }
    }

    method Contains(key: K) returns (found: bool)
      requires Valid()
      ensures found <==> key in contents
    {
      found := false;
      if size > 0 {
        var h, ix := FindInBucket(key);
        found := ix >= 0;
      }
    }

    method Remove(key: K) returns (removed: bool)
      requires Valid()
      modifies this
      ensures Valid() && removed == (key in old(contents)) && contents == old(contents) - {key}
      ensures |buckets| == |old(buckets)|
      ensures if removed then TakenOut(Flat(old(buckets)), Flat(buckets), key) else buckets == old(buckets)
    {
      removed := false;
      if size > 0 {
        var h, ix := FindInBucket(key);
        if ix >= 0 {
          var bucket := BucketRemove(buckets[h], ix);
          RemoveRepresents(buckets, hash, contents, h, ix);
          RemoveKeepsOrder(buckets, h, ix);
          FlatUpdate(buckets, h, bucket);
          buckets := buckets[h := bucket];
          contents := contents - {key};
          size := size - 1;
          removed := true;
        }
      }
    }

    /** Puts NULL in the place of an entry's value. */
    method ClearValue(h: nat, ix: nat)
      requires Valid() && h < |buckets| && ix < |buckets[h]|
      modifies this`buckets, this`contents
      ensures Valid() && contents == old(contents)[old(buckets)[h][ix].key := nil] && |buckets| == |old(buckets)|
    {
      var bucket: Bucket<K, V> := buckets[h];
      var bucket' := bucket[ix := bucket[ix].(value := nil)];
      hide Represents, Flat, IsBucketCount;
      OverwriteRepresents(buckets, hash, contents, h, ix, nil);
      FlatUpdate(buckets, h, bucket');
      PlacedIn(buckets, hash, contents, h, ix);
      buckets := buckets[h := bucket'];
      contents := contents[bucket[ix].key := nil];
    }

    /** `dict_pop`: takes the value out of its entry, removes the entry and returns the value. */
    method Pop(key: K) returns (value: V)
      requires Valid()
      modifies this
      ensures Valid() && contents == old(contents) - {key}
      ensures value == if key in old(contents) then old(contents)[key] else nil
    {
      hide Represents, Flat, IsBucketCount;
      value := nil;
      if size > 0 {
        var h, ix := FindInBucket(key);
        if ix >= 0 {
          value := buckets[h][ix].value;
          ClearValue(h, ix);
          var _ := Remove(key);
        }
      }
    }

    method Clear()
      requires Valid()
      modifies this
      ensures Valid() && contents == map[] && |buckets| == |old(buckets)|
    {
      if size > 0 {
        var i := 0;
        while i < |buckets|
          invariant 0 <= i <= |buckets| == |old(buckets)| && unchanged(this`size) && unchanged(this`contents)
          invariant forall b :: 0 <= b < i ==> buckets[b] == []
        {
          buckets := buckets[i := []];
          i := i + 1;
        }
        size, contents := 0, map[];
        assert buckets == Empties(|buckets|);
        FlatEmpty<K, V>(|buckets|);
      }
    }
  }

  // ---------- the iterator ----------

  function Size<K, V>(buckets: seq<Bucket<K, V>>, b: int): nat {
    if 0 <= b < |buckets| then |buckets[b]| else 0
  }

  ghost function Clamp(x: int, hi: nat): nat {
    if x < 0 then 0 else if x > hi then hi else x
  }

  /** A cursor: before the first bucket, or in a bucket, from before its first entry to behind its last. */
  ghost predicate IsCursor<K, V>(buckets: seq<Bucket<K, V>>, b: int, e: int) {
    -1 <= b < |buckets| && -1 <= e <= Size(buckets, b) && (b == -1 ==> e == -1)
  }

  /** How many entries lie before the cursor, not counting the one it is on. */
  ghost function Before<K, V>(buckets: seq<Bucket<K, V>>, b: int, e: int): nat {
    |Flat(buckets[..Clamp(b, |buckets|)])| + Clamp(e, Size(buckets, b))
  }

  /** How many entries lie before the cursor or under it. */
  ghost function Through<K, V>(buckets: seq<Bucket<K, V>>, b: int, e: int): nat {
    |Flat(buckets[..Clamp(b, |buckets|)])| + Clamp(e + 1, Size(buckets, b))
  }

  lemma FlatNext<K, V>(buckets: seq<Bucket<K, V>>, b: nat)
    requires b < |buckets|
    ensures |Flat(buckets[..b + 1])| == |Flat(buckets[..b])| + |buckets[b]| <= |Flat(buckets)|
    ensures forall i :: 0 <= i < |buckets[b]| ==> Flat(buckets)[|Flat(buckets[..b])| + i] == buckets[b][i]
  {
    FlatConcat(buckets[..b], [buckets[b]]);
    assert buckets[..b + 1] == buckets[..b] + [buckets[b]] && Flat([buckets[b]]) == buckets[b];
    FlatSplit(buckets, b);
  }

  class DictIterator<K(==), V> {
    const dict: Dict<K, V>
    var currentBucket: int
    var currentEntry: int

    ghost predicate Valid()
      reads this, dict
    {
      IsCursor(dict.buckets, currentBucket, currentEntry)
    }

    constructor (dict: Dict<K, V>)
      ensures Valid() && this.dict == dict && Before(dict.buckets, currentBucket, currentEntry) == 0
      ensures Through(dict.buckets, currentBucket, currentEntry) == 0
    {
      this.dict := dict;
      currentBucket, currentEntry := -1, -1;
    }

    method Head()
      modifies this`currentBucket, this`currentEntry
      ensures Valid() && Through(dict.buckets, currentBucket, currentEntry) == 0
    {
      currentBucket, currentEntry := -1, -1;
    }

    method Tail()
      modifies this`currentBucket, this`currentEntry
      ensures Valid() && Before(dict.buckets, currentBucket, currentEntry) == |Flat(dict.buckets)|
    {
      currentBucket := |dict.buckets| - 1;
      currentEntry := if currentBucket >= 0 then |dict.buckets[currentBucket]| else -1;
      if currentBucket >= 0 {
        FlatNext(dict.buckets, currentBucket);
        assert dict.buckets[..currentBucket + 1] == dict.buckets;
      }
    }

    predicate BucketHasNext(b: int, e: int)
      reads this, dict
    {
      b >= 0 && b < |dict.buckets| && |dict.buckets[b]| > 0 && e < |dict.buckets[b]| - 1
    }

    predicate BucketHasPrev(b: int, e: int)
      reads this, dict
    {
      b >= 0 && b < |dict.buckets| && |dict.buckets[b]| > 0 && e > 0 && e <= |dict.buckets[b]|
    }

    /** The bucket in which the next entry is, -1 if there is none, and the position before that entry. */
    method BucketNext() returns (b: int, e: int)
      requires Valid()
      ensures b >= 0 <==> Through(dict.buckets, currentBucket, currentEntry) < |Flat(dict.buckets)|
      ensures b >= 0 ==> BucketHasNext(b, e) && -1 <= e
                         && Through(dict.buckets, b, e) == Through(dict.buckets, currentBucket, currentEntry)
    {
      b, e := currentBucket, currentEntry;
      while b < |dict.buckets| && !BucketHasNext(b, e)
        invariant -1 <= b <= |dict.buckets| && -1 <= e && (b == |dict.buckets| ==> e == -1)
        invariant Through(dict.buckets, b, e) == Through(dict.buckets, currentBucket, currentEntry)
      {
        if b >= 0 { FlatNext(dict.buckets, b); }
        b, e := b + 1, -1;
      }
      if b < |dict.buckets| {
        FlatNext(dict.buckets, b);
      } else {
        assert dict.buckets[..|dict.buckets|] == dict.buckets;
        b := -1;
      }
    }

    method BucketPrev() returns (b: int, e: int)
      requires Valid()
      ensures b >= 0 <==> Before(dict.buckets, currentBucket, currentEntry) > 0
      ensures b >= 0 ==> BucketHasPrev(b, e)
                         && Before(dict.buckets, b, e) == Before(dict.buckets, currentBucket, currentEntry)
    {
      b, e := currentBucket, currentEntry;
      while b >= 0 && !BucketHasPrev(b, e)
        invariant -1 <= b < |dict.buckets| && (b >= 0 ==> e <= |dict.buckets[b]|)
        invariant Before(dict.buckets, b, if b >= 0 then e else -1) == Before(dict.buckets, currentBucket, currentEntry)
      {
        b := b - 1;
        if b >= 0 {
          FlatNext(dict.buckets, b);
          e := |dict.buckets[b]|;
        }
      }
    }

    /** Moves to the next entry and returns it; at the end, stays and returns nothing. */
    method Next() returns (r: Option<Entry<K, V>>)
      requires Valid()
      modifies this`currentBucket, this`currentEntry
      ensures Valid()
      ensures var n := Through(dict.buckets, old(currentBucket), old(currentEntry));
              if n < |Flat(dict.buckets)| then
                r == Some(Flat(dict.buckets)[n])
                && Through(dict.buckets, currentBucket, currentEntry) == n + 1
                && Before(dict.buckets, currentBucket, currentEntry) == n
              else
                r == None && currentBucket == old(currentBucket) && currentEntry == old(currentEntry)
    {
      hide Flat;
      var b, e := BucketNext();
      r := None;
      if b >= 0 {
        currentBucket, currentEntry := b, e + 1;
        r := Some(dict.buckets[b][currentEntry]);
        FlatNext(dict.buckets, b);
      }
    }

    /** Moves to the previous entry and returns it; at the start, stays and returns nothing. */
    method Prev() returns (r: Option<Entry<K, V>>)
      requires Valid()
      modifies this`currentBucket, this`currentEntry
      ensures Valid()
      ensures var n := Before(dict.buckets, old(currentBucket), old(currentEntry));
              if n > 0 then
                n <= |Flat(dict.buckets)| && r == Some(Flat(dict.buckets)[n - 1])
                && Before(dict.buckets, currentBucket, currentEntry) == n - 1
                && Through(dict.buckets, currentBucket, currentEntry) == n
              else
                r == None && currentBucket == old(currentBucket) && currentEntry == old(currentEntry)
    {
      hide Flat;
      var b, e := BucketPrev();
      r := None;
      if b >= 0 {
        currentBucket, currentEntry := b, e - 1;
        r := Some(dict.buckets[b][currentEntry]);
        FlatNext(dict.buckets, b);
      }
    }
  }

  function Reversed<X>(s: seq<X>): seq<X> {
    if s == [] then [] else Reversed(s[1..]) + [s[0]]
  }

  /** `dict_reduce` with a reducer that collects the entries. */
  method Reduce<K, V>(d: Dict<K, V>) returns (visited: Bucket<K, V>)
    ensures visited == Flat(d.buckets)
  {
    visited := [];
    var i := 0;
    while i < |d.buckets|
      invariant 0 <= i <= |d.buckets| && visited == Flat(d.buckets[..i])
    {
      FlatConcat(d.buckets[..i], [d.buckets[i]]);
      assert d.buckets[..i + 1] == d.buckets[..i] + [d.buckets[i]] && Flat([d.buckets[i]]) == d.buckets[i];
      var j := 0;
      while j < |d.buckets[i]|
        invariant 0 <= j <= |d.buckets[i]| && visited == Flat(d.buckets[..i]) + d.buckets[i][..j]
      {
        visited := visited + [d.buckets[i][j]];
        j := j + 1;
      }
      i := i + 1;
    }
    assert d.buckets[..i] == d.buckets;
  }

  /** Stepping from the head yields every entry once, in the order of `dict_reduce`. */
  method IterateForward<K, V>(d: Dict<K, V>) returns (visited: Bucket<K, V>)
    ensures visited == Flat(d.buckets)
  {
    hide Flat, Through, Before, IsCursor;
    visited := [];
    ghost var flat := Flat(d.buckets);
    var it := new DictIterator<K, V>(d);
    it.Head();
    var r := it.Next();
    while r.Some?
      invariant it.Valid() && it.dict == d && |visited| <= |flat| && visited == flat[..|visited|]
      invariant if |visited| < |flat| then r == Some(flat[|visited|]) else r == None
      invariant r.Some? ==> Through(d.buckets, it.currentBucket, it.currentEntry) == |visited| + 1
      decreases |flat| - |visited|
    {
      visited := visited + [r.value];
      r := it.Next();
    }
  }

  /** Stepping back from the tail yields the reverse. */
  method IterateBackward<K, V>(d: Dict<K, V>) returns (visited: Bucket<K, V>)
    ensures visited == Reversed(Flat(d.buckets))
  {
    hide Flat, Through, Before, IsCursor;
    visited := [];
    ghost var flat := Flat(d.buckets);
    var it := new DictIterator<K, V>(d);
    it.Tail();
    ghost var n := |flat|;
    var r := it.Prev();
    while r.Some?
      invariant it.Valid() && it.dict == d && 0 <= n <= |flat| && visited == Reversed(flat[n..])
      invariant if n > 0 then r == Some(flat[n - 1]) else r == None
      invariant r.Some? ==> Before(d.buckets, it.currentBucket, it.currentEntry) == n - 1
      decreases n
    {
      visited := visited + [r.value];
      assert flat[n - 1..][1..] == flat[n..];
      n := n - 1;
      r := it.Prev();
    }
    assert flat[0..] == flat;
  }
}
