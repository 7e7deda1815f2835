/** The cache: keys are hashed once, the top bits of the hash pick a shard. */
module ShardedCache {
  import opened Base
  import opened Bits
  import opened QueueCosts
  import opened S3Fifo

  const HASH_BITS := 64

  /** The shard of a hash: its top `k` bits, when there are `2^k` shards. */
  function ShardOf(hash: nat, k: nat): nat
    requires k <= HASH_BITS
  {
    var shift: nat := HASH_BITS - k;
    if shift == HASH_BITS then 0 else Shr(hash, shift)
  }

  /** Every 64-bit hash picks an existing shard. */
  lemma ShardInRange(hash: nat, k: nat)
    requires k <= HASH_BITS && hash < Pow2(HASH_BITS)
    ensures ShardOf(hash, k) < Pow2(k)
  {
    hide Pow2, Shr;
    if k > 0 {
      ShrBound(hash, k, HASH_BITS - k);
    } else {
      PositivePow2(k);
    }
  }

  /** The shards cut the hashes into equal consecutive ranges. */
  lemma ShardIsRange(hash: nat, k: nat, i: nat)
    requires k <= HASH_BITS && hash < Pow2(HASH_BITS)
    ensures ShardOf(hash, k) == i <==> i * Pow2(HASH_BITS - k) <= hash < (i + 1) * Pow2(HASH_BITS - k)
  {
    hide Pow2, Shr;
    var width := Pow2(HASH_BITS - k);
    PositivePow2(HASH_BITS - k);
    if k > 0 {
      ShrRange(hash, HASH_BITS - k);
    }
    var at := ShardOf(hash, k);
    if i < at {
      NextMultiple(i, at, width);
    } else if at < i {
      NextMultiple(at, i, width);
    }
  }

  lemma PositivePow2(k: nat)
    ensures Pow2(k) > 0
  {
  }

  /** Equal shares of a budget do not exceed it. */
  lemma ShareBound(capacity: nat, n: nat)
    requires n > 0
    ensures n * (capacity / n) <= capacity
  {
  }

  /** The budget in use over the first `n` shards. */
  ghost function UsedBy(shards: seq<Shard>, n: nat): nat
    requires n <= |shards|
    reads shards
  {
    if n == 0 then 0 else UsedBy(shards, n - 1) + shards[n - 1].used
  }

  lemma {:induction false} UsedWithin(shards: seq<Shard>, n: nat, per: nat)
    requires n <= |shards| && forall s | s in shards :: s.used <= per
    ensures UsedBy(shards, n) <= n * per
  {
    if n > 0 {
      UsedWithin(shards, n - 1, per);
      assert shards[n - 1] in shards;
      assert n * per == (n - 1) * per + per;
    }
  }

  /** Key and value bytes resident in the first `n` shards. */
  ghost function ResidentBytes(shards: seq<Shard>, n: nat): nat
    requires n <= |shards|
    reads shards
  {
    if n == 0 then 0 else ResidentBytes(shards, n - 1) + IndexBytes(shards[n - 1].index)
  }

  ghost function ResidentCount(shards: seq<Shard>, n: nat): nat
    requires n <= |shards|
    reads shards
  {
    if n == 0 then 0 else ResidentCount(shards, n - 1) + |shards[n - 1].index|
  }

  lemma {:induction false} UsedIsResident(shards: seq<Shard>, n: nat)
    requires n <= |shards| && forall s | s in shards :: s.Valid()
    ensures UsedBy(shards, n) == ResidentBytes(shards, n) + 128 * ResidentCount(shards, n)
  {
    hide Shard.Valid;
    if n > 0 {
      UsedIsResident(shards, n - 1);
      assert shards[n - 1] in shards;
      shards[n - 1].UsedIsBytes();
    }
  }

  /** The exponent of the smallest power of two that is at least `n`. */
  function CeilBits(n: nat): (k: nat)
    requires n > 0
    ensures Pow2(k) >= n && (k > 0 ==> Pow2(k - 1) < n)
  {
    if n == 1 then 0 else 1 + CeilBits((n + 1) / 2)
  }

  /** The cost of a whole map, in any order of summation. */
  ghost function MapCost(m: map<Key, Bytes>): nat {
    if m == map[] then 0 else var k :| k in m; CostOf(k, m[k]) + MapCost(m - {k})
  }

  /** Entries kept under their own keys cost what the map of their values costs. */
  lemma {:induction false} EntriesCostTheirMap(entries: map<Key, Entry>, m: map<Key, Bytes>)
    requires entries.Keys == m.Keys
    requires forall k | k in m :: entries[k].key == k && entries[k].value == m[k]
    ensures SetCost(entries.Values) == MapCost(m)
    decreases |m|
  {
    if m == map[] {
      assert entries.Values == {};
    } else {
      var k :| k in m && MapCost(m) == CostOf(k, m[k]) + MapCost(m - {k});
      var rest := entries - {k};
      assert |m.Keys - {k}| < |m.Keys|;
      assert (m - {k}).Keys == m.Keys - {k};
      EntriesCostTheirMap(rest, m - {k});
      ValuesWithout(entries, k);
      SetCostWithout(entries.Values, entries[k]);
    }
  }

  datatype TooLarge = TooLarge(cost: nat, capacity: nat)

  /** Entry `i` is the first that cannot fit a share of `per` bytes, and `r` says so. */
  ghost predicate FirstRefused(entries: seq<(Key, Bytes)>, i: nat, per: nat, r: TooLarge) {
    && i < |entries| && !FitsIn(entries[i], per)
    && r == TooLarge(|entries[i].0| + |entries[i].1| + 128, per)
    && forall j | 0 <= j < i :: FitsIn(entries[j], per)
  }

  /** What a run of sets does to the ideal map. */
  function AfterSets(ideal: map<Key, Bytes>, entries: seq<(Key, Bytes)>): map<Key, Bytes> {
    if entries == [] then ideal
    else
      var last := entries[|entries| - 1];
      AfterSets(ideal, entries[..|entries| - 1])[last.0 := last.1]
  }

  /** Every shard remembers exactly the keys that belong to it, with the ideal value. */
  ghost predicate Placed(latests: seq<map<Key, Entry>>, ideal: map<Key, Bytes>, hasher: Key -> nat, bits: nat)
    requires bits <= HASH_BITS
  {
    && (forall i, k | 0 <= i < |latests| && k in latests[i] ::
          ShardOf(hasher(k), bits) == i && k in ideal && latests[i][k].value == ideal[k])
    && (forall k | k in ideal :: ShardOf(hasher(k), bits) < |latests| && k in latests[ShardOf(hasher(k), bits)])
  }

  lemma PlacedEmpty(latests: seq<map<Key, Entry>>, hasher: Key -> nat, bits: nat)
    requires bits <= HASH_BITS && forall i | 0 <= i < |latests| :: latests[i] == map[]
    ensures Placed(latests, map[], hasher, bits)
  {
  }

  lemma PlacedSet(latests: seq<map<Key, Entry>>, ideal: map<Key, Bytes>, hasher: Key -> nat, bits: nat, e: Entry)
    requires bits <= HASH_BITS && Placed(latests, ideal, hasher, bits) && ShardOf(hasher(e.key), bits) < |latests|
    ensures var a := ShardOf(hasher(e.key), bits);
      Placed(latests[a := latests[a][e.key := e]], ideal[e.key := e.value], hasher, bits)
  {
    hide ShardOf;
  }

  lemma PlacedDel(latests: seq<map<Key, Entry>>, ideal: map<Key, Bytes>, hasher: Key -> nat, bits: nat, key: Key)
    requires bits <= HASH_BITS && Placed(latests, ideal, hasher, bits) && ShardOf(hasher(key), bits) < |latests|
    ensures var a := ShardOf(hasher(key), bits);
      Placed(latests[a := Without(latests[a], key)], ideal - {key}, hasher, bits)
  {
    hide ShardOf;
  }

  /** The part of a map that belongs to shard `i`. */
  ghost function Part(m: map<Key, Bytes>, i: nat, hasher: Key -> nat, bits: nat): map<Key, Bytes>
    requires bits <= HASH_BITS
  {
    map k | k in m && ShardOf(hasher(k), bits) == i :: m[k]
  }

  /** What shard `i` last stored is its part of the ideal map, at the same cost. */
  lemma LatestIsPart(latests: seq<map<Key, Entry>>, ideal: map<Key, Bytes>, hasher: Key -> nat, bits: nat, i: nat)
    requires bits <= HASH_BITS && i < |latests| && Placed(latests, ideal, hasher, bits)
    requires forall k | k in latests[i] :: latests[i][k].key == k
    ensures latests[i].Keys == Part(ideal, i, hasher, bits).Keys
    ensures SetCost(latests[i].Values) == MapCost(Part(ideal, i, hasher, bits))
  {
    hide ShardOf;
    EntriesCostTheirMap(latests[i], Part(ideal, i, hasher, bits));
  }

  function AfterDels(ideal: map<Key, Bytes>, keys: seq<Key>): map<Key, Bytes> {
    if keys == [] then ideal else AfterDels(ideal, keys[..|keys| - 1]) - {keys[|keys| - 1]}
  }

  /** A run of deletes removes exactly its keys, in whatever order. */
  lemma {:induction false} DelsRemoveKeys(ideal: map<Key, Bytes>, keys: seq<Key>)
    ensures AfterDels(ideal, keys) == ideal - (set k | k in keys)
  {
    if keys != [] {
      var n := |keys| - 1;
      DelsRemoveKeys(ideal, keys[..n]);
      assert keys == keys[..n] + [keys[n]];
      assert (set k | k in keys) == (set k | k in keys[..n]) + {keys[n]};
    }
  }

  lemma DelsNone(ideal: map<Key, Bytes>, keys: seq<Key>)
    ensures AfterDels(ideal, keys[..0]) == ideal
  {
  }

  lemma DelsNext(ideal: map<Key, Bytes>, keys: seq<Key>, n: nat)
    requires n < |keys|
    ensures AfterDels(ideal, keys[..n + 1]) == AfterDels(ideal, keys[..n]) - {keys[n]}
    ensures forall k :: k in keys[..n + 1] <==> k in keys[..n] || k == keys[n]
  {
    assert keys[..n + 1][..n] == keys[..n] && keys[..n + 1] == keys[..n] + [keys[n]];
  }

  /** At every prefix of a run of sets, each shard's part of the ideal map fits its share. */
  ghost predicate StaysWithin(ideal: map<Key, Bytes>, entries: seq<(Key, Bytes)>, hasher: Key -> nat, bits: nat, per: nat)
    requires bits <= HASH_BITS
  {
    forall n, i: nat | 0 <= n <= |entries| :: MapCost(Part(AfterSets(ideal, entries[..n]), i, hasher, bits)) <= per
  }

  class Cache {
    const shards: seq<Shard>
    const bits: nat
    const capacity: nat
    const per: nat
    const hasher: Key -> nat
    /** What a map would hold after the same sets and deletes. */
    ghost var ideal: map<Key, Bytes>

    function At(key: Key): nat
      requires bits <= HASH_BITS
    {
      ShardOf(hasher(key), bits)
    }

    ghost predicate Valid()
      reads this, shards
    {
      && bits <= HASH_BITS && |shards| == Pow2(bits)
      && (forall k :: hasher(k) < Pow2(HASH_BITS))
      && (forall i, j | 0 <= i < j < |shards| :: shards[i] != shards[j])
      && (forall s | s in shards :: s.Valid() && s.capacity == per && s.used <= per)
      && Pow2(bits) * per <= capacity
      && Placed(Latests(), ideal, hasher, bits)
    }

    ghost function Latests(): (ls: seq<map<Key, Entry>>)
      reads shards
    {
      seq(|shards|, i requires 0 <= i < |shards| reads shards => shards[i].latest)
    }

    /** Equal shares of the capacity over `count` shards, rounded up to a power of two. */
    constructor (capacity: nat, count: nat, hasher: Key -> nat)
      requires count > 0 && CeilBits(count) <= HASH_BITS && forall k :: hasher(k) < Pow2(HASH_BITS)
      ensures Valid() && ideal == map[] && fresh(shards) && this.capacity == capacity
      ensures bits == CeilBits(count) && per == capacity / Pow2(bits)
      ensures this.hasher == hasher
    {
      hide Pow2, Shard.Valid, Placed, CeilBits;
      var bits := CeilBits(count);
      this.bits, this.capacity, this.hasher := bits, capacity, hasher;
      ideal := map[];
      var built: seq<Shard> := [];
      var n := Pow2(bits);
      var share := capacity / n;
      ShareBound(capacity, n);
      per := share;
      for i := 0 to n
        invariant |built| == i && fresh(built)
        invariant forall i, j | 0 <= i < j < |built| :: built[i] != built[j]
        invariant forall s | s in built :: s.Valid() && s.capacity == share && s.latest == map[] && s.used <= share
      {
        var s := new Shard(share);
        s.EmptyUsesNothing();
        built := built + [s];
      }
      shards := built;
      new;
      PlacedEmpty(Latests(), hasher, bits);
    }

    /** No live entry has been evicted so far. */
    ghost predicate NoEvictions()
      reads shards
    {
      forall s | s in shards :: s.evictions == 0
    }

    /** Total used bytes never exceed the configured capacity, and they are the bytes of the
        resident keys and values, with 128 more for every entry. */
    lemma WithinCapacity()
      requires Valid()
      ensures UsedBy(shards, |shards|) == ResidentBytes(shards, |shards|) + 128 * ResidentCount(shards, |shards|) <= capacity
    {
      hide Pow2, Shard.Valid, Placed;
      UsedWithin(shards, |shards|, per);
      UsedIsResident(shards, |shards|);
    }

    /** Look up one key: nothing, or the value of the latest set not followed by a delete.
        Without evictions the answer is exactly the map's. */
    method Get(key: Key) returns (r: Option<Entry>)
      requires Valid()
      modifies shards
      ensures Valid() && ideal == old(ideal) && Unmoved()
      ensures r == Lookup(key)
      ensures r.Some? ==> key in ideal && r.value.value == ideal[key]
      ensures NoEvictions() ==> (r.Some? <==> key in ideal)
    {
      hide Pow2, Shr, ShardOf, Shard.Valid;
      ShardInRange(hasher(key), bits);
      var s := shards[At(key)];
      Holds(key);
      r := s.Get(key);
      assert Latests() == old(Latests());
    }

    /** Nothing but read counts has changed. */
    twostate predicate Unmoved()
      reads this, shards
    {
      forall s | s in shards :: s.index == old(s.index) && s.latest == old(s.latest) && s.evictions == old(s.evictions)
    }

    /** The entry resident under `key`. */
    ghost function Lookup(key: Key): Option<Entry>
      requires bits <= HASH_BITS
      reads this, shards
    {
      if At(key) < |shards| && key in shards[At(key)].index then Some(shards[At(key)].index[key]) else None
    }

    /** The first entry that could never fit, if any: what a batch of sets is refused with. */
    method CheckAll(entries: seq<(Key, Bytes)>) returns (r: Option<TooLarge>)
      requires Valid()
      ensures r.None? <==> forall e | e in entries :: |e.0| + |e.1| + 128 <= per
      ensures r.Some? ==> exists i :: 0 <= i < |entries| && FirstRefused(entries, i, per, r.value)
    {
      hide Pow2, Shr, ShardOf, Shard.Valid, Placed;
      for n := 0 to |entries|
        invariant forall j | 0 <= j < n :: FitsIn(entries[j], per)
      {
        assert shards[0] in shards;
        var refusal := shards[0].CheckFits(entries[n].0, entries[n].1);
        if refusal.Some? {
          assert entries[n] in entries && FirstRefused(entries, n, per, TooLarge(refusal.value.0, refusal.value.1));
          return Some(TooLarge(refusal.value.0, refusal.value.1));
        }
      }
      return None;
    }

    /** Store one entry that fits: it is resident afterwards, and if everything its shard
        should hold fits the shard's share, nothing has been evicted for it. */
    method Store(key: Key, value: Bytes)
      requires Valid() && FitsIn((key, value), per)
      modifies this`ideal, shards
      ensures Valid() && ideal == old(ideal)[key := value]
      ensures Lookup(key).Some? && Lookup(key).value.value == value
      ensures forall s | s in shards && s != shards[At(key)] :: unchanged(s)
      ensures old(NoEvictions()) && MapCost(Part(ideal, At(key), hasher, bits)) <= per ==> NoEvictions()
    {
      hide Pow2, Shr, ShardOf, Shard.Valid, SetCost, MapCost, KeysOf, Placed;
      ShardInRange(hasher(key), bits);
      var a := At(key);
      var s := shards[a];
      s.History();
      var e, run := s.Set(key, value, hasher(key));
      s.History();
      PlacedSet(old(Latests()), ideal, hasher, bits, e);
      assert Latests() == old(Latests())[a := old(Latests()[a])[key := e]];
      ideal := ideal[key := value];
      LatestIsPart(Latests(), ideal, hasher, bits, a);
    }

    /** Look up many keys in order. Reads change nothing a later read can see, so every answer
        is the one the cache held at the start. */
    method GetMany(keys: seq<Key>) returns (found: seq<Option<Entry>>)
      requires Valid()
      modifies shards
      ensures Valid() && ideal == old(ideal) && Unmoved()
      ensures |found| == |keys| && forall i | 0 <= i < |keys| :: found[i] == old(Lookup(keys[i]))
    {
      hide Shard.Valid, Placed;
      found := [];
      for n := 0 to |keys|
        invariant Valid() && ideal == old(ideal) && Unmoved()
        invariant |found| == n && forall i | 0 <= i < n :: found[i] == old(Lookup(keys[i]))
      {
        UnmovedKeepsLookup(keys[n]);
        var e := Get(keys[n]);
        found := found + [e];
      }
    }

    /** Store many entries. One that could never fit refuses the batch before anything is
        written; otherwise the sets apply in order. While every shard's part fits its share
        at each step, nothing is evicted. */
    method SetMany(entries: seq<(Key, Bytes)>) returns (r: Option<TooLarge>)
      requires Valid()
      modifies this`ideal, shards
      ensures Valid()
      ensures r.None? <==> forall e | e in entries :: |e.0| + |e.1| + 128 <= per
      ensures r.Some? ==> ideal == old(ideal) && forall s | s in shards :: unchanged(s)
      ensures r.Some? ==> exists i :: 0 <= i < |entries| && FirstRefused(entries, i, per, r.value)
      ensures r.None? ==> ideal == AfterSets(old(ideal), entries)
      ensures r.None? && old(NoEvictions()) && StaysWithin(old(ideal), entries, hasher, bits, per) ==> NoEvictions()
    {
      hide Shard.Valid, Placed, Part, MapCost, Pow2;
      r := CheckAll(entries);
      if r.Some? {
        return;
      }
      for n := 0 to |entries|
        invariant Valid() && ideal == AfterSets(old(ideal), entries[..n])
        invariant old(NoEvictions()) && StaysWithin(old(ideal), entries, hasher, bits, per) ==> NoEvictions()
      {
        assert entries[n] in entries;
        assert entries[..n + 1][..n] == entries[..n];
        Store(entries[n].0, entries[n].1);
      }
      assert entries[..|entries|] == entries;
    }

    /** Delete many keys in order, reporting for each whether it was resident. */
    method DelMany(keys: seq<Key>) returns (found: seq<bool>)
      requires Valid()
      modifies this`ideal, shards
      ensures Valid() && ideal == old(ideal) - (set k | k in keys)
      ensures |found| == |keys|
      ensures forall i | 0 <= i < |keys| :: found[i] == (old(Lookup(keys[i])).Some? && keys[i] !in keys[..i])
      ensures old(NoEvictions()) ==> NoEvictions()
    {
      hide Shard.Valid, Placed, Pow2, ShardOf, Lookup, NoEvictions, AfterDels;
      found := [];
      DelsNone(old(ideal), keys);
      for n := 0 to |keys|
        invariant Valid() && ideal == AfterDels(old(ideal), keys[..n])
        invariant |found| == n
        invariant forall i | 0 <= i < n :: found[i] == (old(Lookup(keys[i])).Some? && keys[i] !in keys[..i])
        invariant forall k :: Lookup(k) == if k in keys[..n] then None else old(Lookup(k))
        invariant old(NoEvictions()) ==> NoEvictions()
      {
        DelsNext(old(ideal), keys, n);
        var hit := Erase(keys[n]);
        found := found + [hit];
      }
      assert keys[..|keys|] == keys;
      DelsRemoveKeys(old(ideal), keys);
    }

    /** Delete one key; only that key is gone. */
    method Erase(key: Key) returns (hit: bool)
      requires Valid()
      modifies this`ideal, shards
      ensures Valid() && ideal == old(ideal) - {key}
      ensures hit == old(Lookup(key)).Some?
      ensures forall k :: Lookup(k) == if k == key then None else old(Lookup(k))
      ensures old(NoEvictions()) ==> NoEvictions()
    {
      hide Pow2, Shr, ShardOf, Shard.Valid, Placed;
      ShardInRange(hasher(key), bits);
      var a := At(key);
      var s := shards[a];
      var e := s.Del(key);
      PlacedDel(old(Latests()), ideal, hasher, bits, key);
      assert Latests() == old(Latests())[a := Without(old(Latests()[a]), key)];
      ideal := ideal - {key};
      hit := e.Some?;
    }

    /** A resident entry is the latest value of its key, and without evictions every key of the
        ideal map is resident. */
    lemma Holds(key: Key)
      requires Valid()
      ensures Lookup(key).Some? ==> key in ideal && Lookup(key).value.value == ideal[key]
      ensures NoEvictions() ==> (Lookup(key).Some? <==> key in ideal)
    {
      hide Pow2, Shr, ShardOf, Shard.Valid;
      ShardInRange(hasher(key), bits);
      var s := shards[At(key)];
      s.History();
      assert s.latest == Latests()[At(key)];
    }

    twostate lemma UnmovedKeepsLookup(key: Key)
      requires bits <= HASH_BITS && Unmoved()
      ensures Lookup(key) == old(Lookup(key))
    {
    }
  }
}
