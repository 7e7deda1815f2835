/** A batch on the sharded cache itself, served by runs through the cache's own many-operations:
    every reply is the one a map would give, or a miss where an eviction took the key; while the
    live keys of every shard fit its share there are no such misses. */
module CacheBatch {
  import opened Base
  import opened Wire
  import opened Server
  import opened FrameIO
  import opened BatchEncoding
  import opened BatchServer
  import opened ReadBack
  import opened ShardedCache

  /** Every shard's part of the map fits its share. */
  ghost predicate Roomy(c: Cache, m: Store)
    requires c.bits <= HASH_BITS
  {
    forall i: nat :: MapCost(Part(m, i, c.hasher, c.bits)) <= c.per
  }

  /** Whatever prefix of the items has been executed, what the map then holds fits. */
  ghost predicate RoomyThroughout(c: Cache, h: Host<Store>, m: Store, fs: seq<Frame>)
    requires c.bits <= HASH_BITS
  {
    forall n | 0 <= n <= |fs| :: Roomy(c, RunItems(h, m, fs[..n]).0)
  }

  /** A cache, and the map host of the same settings it is compared with. */
  ghost predicate Backed(c: Cache, h: Host<Store>)
    reads c, c.shards
  {
    c.bits <= HASH_BITS && c.Valid() && h == Exact(c.per, h.token, h.say)
  }

  /** The reply is the map's, or a lookup or delete found nothing. */
  predicate Allowed(f: Frame, exact: Frame, r: Frame) {
    r == exact || ((f.tag == GET || f.tag == DEL) && r == Frame(NOT_FOUND, []))
  }

  ghost predicate AllAllowed(fs: seq<Frame>, exact: seq<Frame>, rs: seq<Frame>) {
    |fs| == |exact| == |rs| && forall i | 0 <= i < |fs| :: Allowed(fs[i], exact[i], rs[i])
  }

  /** A lookup answered with nothing, or with exactly what the map holds. */
  predicate ReadsFrom(m: Store, k: Key, r: Frame) {
    r == Frame(NOT_FOUND, []) || (k in m && r == Frame(OK, m[k]))
  }

  /** Every lookup among the replies reads from the map as it is at that item. */
  ghost predicate AllRead(h: Host<Store>, m: Store, fs: seq<Frame>, rs: seq<Frame>) {
    |rs| == |fs| && forall i | 0 <= i < |fs| && fs[i].tag == GET :: ReadsFrom(RunItems(h, m, fs[..i]).0, fs[i].body, rs[i])
  }

  lemma AllowedReads(per: nat, h: Host<Store>, m: Store, fs: seq<Frame>, rs: seq<Frame>)
    requires h == Exact(per, h.token, h.say) && AllAllowed(fs, RunItems(h, m, fs).1, rs)
    ensures AllRead(h, m, fs, rs)
  {
    hide RunItems;
    forall i | 0 <= i < |fs| && fs[i].tag == GET
      ensures ReadsFrom(RunItems(h, m, fs[..i]).0, fs[i].body, rs[i])
    {
      ReplyAt(h, m, fs, i);
      GetReadsMap(per, h, RunItems(h, m, fs[..i]).0, fs[i]);
    }
  }

  lemma GetReadsMap(per: nat, h: Host<Store>, m: Store, f: Frame)
    requires h == Exact(per, h.token, h.say) && f.tag == GET
    ensures ReadsFrom(m, f.body, ItemReply(h, m, f).1)
  {
  }

  lemma AllowedJoin(fs: seq<Frame>, exact: seq<Frame>, rs: seq<Frame>, fs': seq<Frame>, exact': seq<Frame>, rs': seq<Frame>)
    requires AllAllowed(fs, exact, rs) && AllAllowed(fs', exact', rs')
    ensures AllAllowed(fs + fs', exact + exact', rs + rs')
  {
    hide Allowed;
  }

  lemma ExactIsAllowed(fs: seq<Frame>, exact: seq<Frame>)
    requires |fs| == |exact|
    ensures AllAllowed(fs, exact, exact)
  {
  }

  lemma RoomyRest(c: Cache, h: Host<Store>, m: Store, fs: seq<Frame>, i: nat)
    requires c.bits <= HASH_BITS && i <= |fs| && RoomyThroughout(c, h, m, fs)
    ensures RoomyThroughout(c, h, RunItems(h, m, fs[..i]).0, fs[i..])
  {
    hide RunItems, Roomy;
    forall n | 0 <= n <= |fs[i..]|
      ensures Roomy(c, RunItems(h, RunItems(h, m, fs[..i]).0, fs[i..][..n]).0)
    {
      RunSplits(h, m, fs[..i], fs[i..][..n]);
      assert fs[..i] + fs[i..][..n] == fs[..i + n];
    }
  }

  lemma RoomyPart(c: Cache, h: Host<Store>, m: Store, fs: seq<Frame>, j: nat)
    requires c.bits <= HASH_BITS && j <= |fs| && RoomyThroughout(c, h, m, fs)
    ensures RoomyThroughout(c, h, m, fs[..j])
  {
    hide RunItems, Roomy;
    assert forall n | 0 <= n <= j :: fs[..j][..n] == fs[..n];
  }

  function Value(e: Option<Entry>): Option<Bytes> {
    if e.Some? then Some(e.value.value) else None
  }

  lemma {:induction false} GetsLeaveMap(h: Host<Store>, per: nat, token: Bytes, say: Note -> Bytes, m: Store, run: seq<Frame>, vs: seq<Option<Bytes>>)
    requires h == Exact(per, token, say) && |vs| == |run|
    requires forall i | 0 <= i < |run| :: run[i].tag == GET && vs[i] == Lookup(m, run[i].body)
    ensures RunItems(h, m, run) == (m, LookedAll(vs))
  {
    if run != [] {
      var n := |run| - 1;
      GetsLeaveMap(h, per, token, say, m, run[..n], vs[..n]);
    }
  }

  lemma {:induction false} DelsEmptyMap(h: Host<Store>, per: nat, token: Bytes, say: Note -> Bytes, m: Store, run: seq<Frame>,
                                       keys: seq<Key>, hits: seq<bool>)
    requires h == Exact(per, token, say) && |hits| == |run| == |keys|
    requires forall i | 0 <= i < |run| ::
      run[i].tag == DEL && keys[i] == run[i].body && hits[i] == (keys[i] in m && keys[i] !in keys[..i])
    ensures RunItems(h, m, run) == (AfterDels(m, keys), DeletedAll(hits))
  {
    if run != [] {
      var n := |run| - 1;
      assert forall i | 0 <= i < n :: keys[..n][..i] == keys[..i];
      DelsEmptyMap(h, per, token, say, m, run[..n], keys[..n], hits[..n]);
      DelsRemoveKeys(m, keys[..n]);
    }
  }

  lemma {:induction false} SetsFillMap(h: Host<Store>, per: nat, token: Bytes, say: Note -> Bytes, m: Store, run: seq<Frame>,
                                      entries: seq<(Key, Bytes)>)
    requires h == Exact(per, token, say) && Parses(run, entries) && forall e | e in entries :: FitsIn(e, per)
    ensures RunItems(h, m, run) == (AfterSets(m, entries), Oks(|run|))
  {
    hide SetBody, FitsIn;
    if run != [] {
      var n := |run| - 1;
      assert entries[n] in entries && forall e | e in entries[..n] :: e in entries;
      SetsFillMap(h, per, token, say, m, run[..n], entries[..n]);
    }
  }

  /** What the map holds under each key of a run. */
  function Wanted(m: Store, run: seq<Frame>): (vs: seq<Option<Bytes>>)
    ensures |vs| == |run| && forall i | 0 <= i < |run| :: vs[i] == Lookup(m, run[i].body)
  {
    if run == [] then [] else Wanted(m, run[..|run| - 1]) + [Lookup(m, run[|run| - 1].body)]
  }

  lemma GetsAllowed(run: seq<Frame>, want: seq<Option<Bytes>>, vs: seq<Option<Bytes>>)
    requires |want| == |vs| == |run|
    requires forall i | 0 <= i < |run| :: run[i].tag == GET && (vs[i] == want[i] || vs[i] == None)
    ensures AllAllowed(run, LookedAll(want), LookedAll(vs))
  {
    LookedAt(want);
    LookedAt(vs);
  }

  lemma GetsRead(m: Store, run: seq<Frame>, vs: seq<Option<Bytes>>)
    requires |vs| == |run| && forall i | 0 <= i < |run| :: vs[i] == Lookup(m, run[i].body) || vs[i] == None
    ensures |LookedAll(vs)| == |run| && forall i | 0 <= i < |run| :: ReadsFrom(m, run[i].body, LookedAll(vs)[i])
  {
    hide LookedAll;
    LookedAt(vs);
  }

  lemma DelsAllowed(run: seq<Frame>, want: seq<bool>, hits: seq<bool>)
    requires |want| == |hits| == |run|
    requires forall i | 0 <= i < |run| :: run[i].tag == DEL && (hits[i] == want[i] || !hits[i])
    ensures AllAllowed(run, DeletedAll(want), DeletedAll(hits))
  {
    DeletedAt(want);
    DeletedAt(hits);
  }

  /** A run of GETs. */
  method GetRun(c: Cache, ghost h: Host<Store>, run: seq<Frame>) returns (rs: seq<Frame>)
    requires Backed(c, h) && forall f | f in run :: f.tag == GET
    modifies c.shards
    ensures Backed(c, h) && RunItems(h, old(c.ideal), run).0 == c.ideal
    ensures AllAllowed(run, RunItems(h, old(c.ideal), run).1, rs)
    ensures forall i | 0 <= i < |run| :: ReadsFrom(c.ideal, run[i].body, rs[i])
    ensures old(c.NoEvictions()) ==> c.NoEvictions() && rs == RunItems(h, old(c.ideal), run).1
  {
    hide RunItems, Exact, Cache.Valid, AllAllowed, LookedAll, ReadsFrom;
    var keys := Bodies(run);
    forall k
      ensures Value(c.Lookup(k)) == Lookup(c.ideal, k) || (Value(c.Lookup(k)) == None && !c.NoEvictions())
    {
      c.Holds(k);
    }
    var found := c.GetMany(keys);
    var vs: seq<Option<Bytes>> := [];
    for i := 0 to |found|
      invariant |vs| == i && forall j | 0 <= j < i :: vs[j] == Value(found[j])
    {
      vs := vs + [Value(found[i])];
    }
    ghost var want := Wanted(c.ideal, run);
    assert forall i | 0 <= i < |run| :: run[i] in run;
    assert old(c.NoEvictions()) ==> vs == want;
    GetsLeaveMap(h, c.per, h.token, h.say, c.ideal, run, want);
    GetsAllowed(run, want, vs);
    rs := LookedAll(vs);
    GetsRead(c.ideal, run, vs);
  }

  function Bodies(run: seq<Frame>): (keys: seq<Key>)
    ensures |keys| == |run| && forall i | 0 <= i < |run| :: keys[i] == run[i].body
  {
    if run == [] then [] else Bodies(run[..|run| - 1]) + [run[|run| - 1].body]
  }

  /** Which deletes of a run find their key in the map. */
  function Hits(m: Store, keys: seq<Key>): (hits: seq<bool>)
    ensures |hits| == |keys| && forall i | 0 <= i < |keys| :: hits[i] == (keys[i] in m && keys[i] !in keys[..i])
  {
    if keys == [] then []
    else
      var n := |keys| - 1;
      assert forall i | 0 <= i < n :: keys[..n][..i] == keys[..i];
      Hits(m, keys[..n]) + [keys[n] in m && keys[n] !in keys[..n]]
  }

  /** A run of DELs. */
  method DelRun(c: Cache, ghost h: Host<Store>, run: seq<Frame>) returns (rs: seq<Frame>)
    requires Backed(c, h) && forall f | f in run :: f.tag == DEL
    modifies c`ideal, c.shards
    ensures Backed(c, h) && RunItems(h, old(c.ideal), run).0 == c.ideal
    ensures AllAllowed(run, RunItems(h, old(c.ideal), run).1, rs)
    ensures old(c.NoEvictions()) ==> c.NoEvictions() && rs == RunItems(h, old(c.ideal), run).1
  {
    hide RunItems, Exact, Cache.Valid, AllAllowed;
    var keys := Bodies(run);
    forall k
      ensures c.Lookup(k).Some? ==> k in c.ideal
      ensures c.NoEvictions() ==> (c.Lookup(k).Some? <==> k in c.ideal)
    {
      c.Holds(k);
    }
    var hits := c.DelMany(keys);
    ghost var m := old(c.ideal);
    ghost var want := Hits(m, keys);
    assert forall i | 0 <= i < |run| :: run[i] in run;
    assert old(c.NoEvictions()) ==> hits == want;
    DelsEmptyMap(h, c.per, h.token, h.say, m, run, keys, want);
    DelsRemoveKeys(m, keys);
    DelsAllowed(run, want, hits);
    rs := DeletedAll(hits);
  }

  lemma AfterSetsIsRun(c: Cache, h: Host<Store>, m: Store, run: seq<Frame>, entries: seq<(Key, Bytes)>)
    requires c.bits <= HASH_BITS && h == Exact(c.per, h.token, h.say) && Parses(run, entries)
    requires (forall e | e in entries :: FitsIn(e, c.per)) && RoomyThroughout(c, h, m, run)
    ensures StaysWithin(m, entries, c.hasher, c.bits, c.per)
  {
    hide RunItems, SetBody, FitsIn, Exact, Part, MapCost;
    forall n, i: nat | 0 <= n <= |entries|
      ensures MapCost(Part(AfterSets(m, entries[..n]), i, c.hasher, c.bits)) <= c.per
    {
      assert forall e | e in entries[..n] :: e in entries;
      SetsFillMap(h, c.per, h.token, h.say, m, run[..n], entries[..n]);
      assert Roomy(c, RunItems(h, m, run[..n]).0);
    }
  }

  /** A run of SETs: stored at once, or one by one when some entry could never fit. */
  method SetRun(c: Cache, h: Host<Store>, ghost run: seq<Frame>, entries: seq<(Key, Bytes)>) returns (rs: seq<Frame>)
    requires Backed(c, h) && Parses(run, entries)
    modifies c`ideal, c.shards
    ensures Backed(c, h) && RunItems(h, old(c.ideal), run) == (c.ideal, rs)
    ensures old(c.NoEvictions()) && RoomyThroughout(c, h, old(c.ideal), run) ==> c.NoEvictions()
  {
    hide RunItems, Exact, Cache.Valid, Parses, StaysWithin, RoomyThroughout;
    ghost var m := c.ideal;
    var refused := c.SetMany(entries);
    if refused.None? {
      if RoomyThroughout(c, h, m, run) {
        AfterSetsIsRun(c, h, m, run, entries);
      }
      SetsFillMap(h, c.per, h.token, h.say, m, run, entries);
      rs := Oks(|entries|);
      ParsesLength(run, entries);
      return;
    }
    rs := SetOneByOne(c, h, run, entries);
  }

  lemma ParsesLength(run: seq<Frame>, entries: seq<(Key, Bytes)>)
    requires Parses(run, entries)
    ensures |run| == |entries|
  {
  }

  method SetOneByOne(c: Cache, h: Host<Store>, ghost run: seq<Frame>, entries: seq<(Key, Bytes)>) returns (rs: seq<Frame>)
    requires Backed(c, h) && Parses(run, entries)
    modifies c`ideal, c.shards
    ensures Backed(c, h) && RunItems(h, old(c.ideal), run) == (c.ideal, rs)
    ensures old(c.NoEvictions()) && RoomyThroughout(c, h, old(c.ideal), run) ==> c.NoEvictions()
  {
    hide RunItems, Exact, Cache.Valid, SetBody, Part, MapCost;
    rs := [];
    ghost var m := c.ideal;
    RunNothing(h, m, run);
    for i := 0 to |entries|
      invariant Backed(c, h) && RunItems(h, m, run[..i]) == (c.ideal, rs)
      invariant old(c.NoEvictions()) && RoomyThroughout(c, h, m, run) ==> c.NoEvictions()
    {
      var (k, v) := entries[i];
      ghost var before := c.ideal;
      RunSetNext(h, c.per, h.token, h.say, m, run, entries, i, before, rs);
      OneSet(c, before, (k, v));
      var one := c.SetMany([(k, v)]);
      if one.None? {
        rs := rs + [Frame(OK, [])];
      } else {
        rs := rs + [Frame(TOO_LARGE, h.say(NoRoom(one.value.cost, one.value.capacity)))];
      }
    }
    assert run[..|run|] == run;
  }

  lemma RunSetNext(h: Host<Store>, per: nat, token: Bytes, say: Note -> Bytes, m: Store, run: seq<Frame>,
                   entries: seq<(Key, Bytes)>, i: nat, now: Store, rs: seq<Frame>)
    requires h == Exact(per, token, say) && Parses(run, entries) && i < |run| && RunItems(h, m, run[..i]) == (now, rs)
    ensures var e := entries[i];
            RunItems(h, m, run[..i + 1]) ==
            if FitsIn(e, per) then (now[e.0 := e.1], rs + [Frame(OK, [])])
            else (now, rs + [Frame(TOO_LARGE, say(NoRoom(CostOf(e.0, e.1), per)))])
  {
    hide SetBody;
    assert run[..i + 1][..i] == run[..i];
  }

  /** Storing one entry through the many-operation. */
  lemma OneSet(c: Cache, m: Store, e: (Key, Bytes))
    requires c.bits <= HASH_BITS
    ensures AfterSets(m, [e]) == m[e.0 := e.1]
    ensures Roomy(c, m) && Roomy(c, m[e.0 := e.1]) ==> StaysWithin(m, [e], c.hasher, c.bits, c.per)
    ensures (forall x | x in [e] :: FitsIn(x, c.per)) <==> FitsIn(e, c.per)
    ensures forall r, i: nat | i < 1 && FirstRefused([e], i, c.per, r) :: r == TooLarge(CostOf(e.0, e.1), c.per)
  {
    hide MapCost, Part;
    assert [e][..0] == [] && [e][..1] == [e] && AfterSets(m, []) == m;
    assert e in [e];
  }

  lemma RunNothing(h: Host<Store>, m: Store, run: seq<Frame>)
    ensures RunItems(h, m, run[..0]) == (m, [])
  {
  }

  /** What a run of the batch owes: the map's contents, the map's replies but for misses, and no
      misses while nothing is evicted. */
  twostate predicate Answers(c: Cache, h: Host<Store>, fs: seq<Frame>, rs: seq<Frame>)
    reads c, c.shards
  {
    && Backed(c, h) && RunItems(h, old(c.ideal), fs).0 == c.ideal
    && AllAllowed(fs, RunItems(h, old(c.ideal), fs).1, rs)
    && (old(c.NoEvictions()) && RoomyThroughout(c, h, old(c.ideal), fs) ==>
          c.NoEvictions() && rs == RunItems(h, old(c.ideal), fs).1)
  }

  /** The run starting at item `i`. */
  method ExecuteOn(c: Cache, h: Host<Store>, fs: seq<Frame>, i: nat) returns (j: nat, rs: seq<Frame>)
    requires Backed(c, h) && i < |fs|
    modifies c`ideal, c.shards
    ensures i < j <= |fs| && Answers(c, h, fs[i..j], rs)
  {
    hide RunItems, Exact, Cache.Valid, RoomyThroughout, Roomy, Parses, AllAllowed;
    var op := fs[i].tag;
    if op == GET {
      j := RunEnd(fs, i);
      rs := GetRun(c, h, fs[i..j]);
    } else if op == SET {
      j, rs := SetsOn(c, h, fs, i);
    } else if op == DEL {
      j := RunEnd(fs, i);
      rs := DelRun(c, h, fs[i..j]);
    } else {
      j := i + 1;
      rs := [Frame(UNKNOWN_OP, h.say(NotInBatch(op)))];
      assert fs[i..j] == [fs[i]];
      RunOne(h, c.ideal, fs[i]);
      ExactIsAllowed(fs[i..j], rs);
    }
  }

  method SetsOn(c: Cache, h: Host<Store>, fs: seq<Frame>, i: nat) returns (j: nat, rs: seq<Frame>)
    requires Backed(c, h) && i < |fs| && fs[i].tag == SET
    modifies c`ideal, c.shards
    ensures i < j <= |fs| && Answers(c, h, fs[i..j], rs)
  {
    hide RunItems, Exact, Cache.Valid, RoomyThroughout, Roomy, Parses, AllAllowed;
    ghost var m := c.ideal;
    var entries, bad;
    j, entries, bad := SetRunEnd(fs, i);
    var k := i + |entries|;
    if RoomyThroughout(c, h, m, fs[i..j]) {
      RoomyPart(c, h, m, fs[i..j], k - i);
      assert fs[i..j][..k - i] == fs[i..k];
    }
    rs := SetRun(c, h, fs[i..k], entries);
    if bad.Some? {
      RunSplits(h, m, fs[i..k], [fs[k]]);
      RunOne(h, c.ideal, fs[k]);
      assert fs[i..j] == fs[i..k] + [fs[k]];
      rs := rs + [Frame(BAD_REQUEST, h.say(Malformed(bad.value)))];
    }
    ExactIsAllowed(fs[i..j], rs);
  }

  lemma RoomyRun(c: Cache, h: Host<Store>, m: Store, fs: seq<Frame>, i: nat, j: nat)
    requires c.bits <= HASH_BITS && i <= j <= |fs| && RoomyThroughout(c, h, m, fs)
    ensures RoomyThroughout(c, h, RunItems(h, m, fs[..i]).0, fs[i..j])
  {
    hide RoomyThroughout, RunItems;
    RoomyRest(c, h, m, fs, i);
    RoomyPart(c, h, RunItems(h, m, fs[..i]).0, fs[i..], j - i);
    assert fs[i..][..j - i] == fs[i..j];
  }

  /** All items of a batch on the sharded cache, their replies written run by run. */
  method BatchOn(c: Cache, h: Host<Store>, fs: seq<Frame>, out: FrameWriter, ghost mark: Mark) returns (ghost rs: seq<Frame>)
    requires Backed(c, h) && out.Valid() && out.Marks(mark)
    modifies c`ideal, c.shards, out
    ensures Answers(c, h, fs, rs) && |rs| == |fs|
    ensures out.Valid() && out.Marks(mark) && out.Queued() == old(out.Queued()) + EncodeAll(rs)
  {
    hide RunItems, Exact, Cache.Valid, RoomyThroughout, Roomy, AllAllowed, EncodeAll, FrameWriter.Marks, FrameWriter.Queued, FrameWriter.Valid;
    ghost var m := c.ideal;
    ghost var calm := c.NoEvictions() && RoomyThroughout(c, h, m, fs);
    var i: nat := 0;
    rs := [];
    NothingRun(h, m, fs);
    ExactIsAllowed(fs[..0], []);
    while i < |fs|
      invariant i <= |fs| && Backed(c, h) && out.Valid() && out.Marks(mark)
      invariant RunItems(h, m, fs[..i]).0 == c.ideal && AllAllowed(fs[..i], RunItems(h, m, fs[..i]).1, rs)
      invariant calm ==> c.NoEvictions() && rs == RunItems(h, m, fs[..i]).1
      invariant out.Queued() == old(out.Queued()) + EncodeAll(rs)
    {
      var j, more := ExecuteOn(c, h, fs, i);
      if calm {
        RoomyRun(c, h, m, fs, i, j);
      }
      RunSplits(h, m, fs[..i], fs[i..j]);
      assert fs[..j] == fs[..i] + fs[i..j];
      AllowedJoin(fs[..i], RunItems(h, m, fs[..i]).1, rs, fs[i..j], RunItems(h, RunItems(h, m, fs[..i]).0, fs[i..j]).1, more);
      PutAll(out, more);
      EncodeAllSplit(rs, more);
      assert old(out.Queued()) + EncodeAll(rs) + EncodeAll(more) == old(out.Queued()) + EncodeAll(rs + more);
      rs := rs + more;
      i := j;
    }
    assert fs[..|fs|] == fs;
    AllowedLength(fs, RunItems(h, m, fs).1, rs);
  }

  /** The frame a list of replies is sent as. */
  function Sealed(h: Host<Store>, rs: seq<Frame>): Frame {
    var b := EncodeBatch(rs);
    if |b| > MAX_RESPONSE then Frame(TOO_LARGE, h.say(ResponseTooLong(|b|))) else Frame(OK, b)
  }

  /** A whole BATCH request on the sharded cache: one reply frame, a refusal of the body or the
      sealed replies, each the map's or a miss; and exactly the map's frame while nothing was
      evicted and the keys of every shard fit. */
  method ServeOn(c: Cache, h: Host<Store>, body: Bytes, out: FrameWriter) returns (ghost rs: seq<Frame>)
    requires Backed(c, h) && out.Valid()
    modifies c`ideal, c.shards, out
    ensures Backed(c, h) && c.ideal == BatchReply(h, old(c.ideal), body).0 && out.Valid()
    ensures DecodeBatch(body).Err? ==> out.Queued() == old(out.Queued()) + Encode(BatchReply(h, old(c.ideal), body).1)
    ensures DecodeBatch(body).Ok? ==>
              && out.Queued() == old(out.Queued()) + Encode(Sealed(h, rs))
              && AllAllowed(DecodeBatch(body).value, RunItems(h, old(c.ideal), DecodeBatch(body).value).1, rs)
    ensures DecodeBatch(body).Ok? ==> AllRead(h, old(c.ideal), DecodeBatch(body).value, rs)
    ensures DecodeBatch(body).Ok? && old(c.NoEvictions()) && RoomyThroughout(c, h, old(c.ideal), DecodeBatch(body).value) ==>
              c.NoEvictions() && out.Queued() == old(out.Queued()) + Encode(BatchReply(h, old(c.ideal), body).1)
  {
    hide RunItems, Encode, EncodeBatch, DecodeBatch, Exact, Cache.Valid, RoomyThroughout, AllAllowed, AllRead, FrameWriter.Queued;
    rs := [];
    var valid := Validate(body);
    if valid.Err? {
      out.PutFrame(Frame(BAD_REQUEST, h.say(Malformed(valid.error))));
      return;
    }
    var fs := AllItems(body);
    rs := ServeItems(c, h, fs, out);
    AllowedReads(c.per, h, old(c.ideal), fs, rs);
  }

  /** The items of a valid body, answered in one frame. */
  method ServeItems(c: Cache, h: Host<Store>, fs: seq<Frame>, out: FrameWriter) returns (ghost rs: seq<Frame>)
    requires Backed(c, h) && out.Valid()
    modifies c`ideal, c.shards, out
    ensures Answers(c, h, fs, rs)
    ensures out.Valid() && out.Queued() == old(out.Queued()) + Encode(Sealed(h, rs))
  {
    hide RunItems, Encode, EncodeAll, EncodeBatch, Header, U32, FrameWriter.Marks, FrameWriter.Queued, AllAllowed,
      RoomyThroughout, Cache.Valid, Exact;
    ghost var before := out.Queued();
    var mark := out.Begin(OK);
    out.PutSlice(U32(|fs|));
    rs := BatchOn(c, h, fs, out, mark);
    BatchBytes(before + Header(OK, 0), rs);
    Seal(h, out, mark, before, EncodeBatch(rs));
  }

  lemma BatchBytes(front: Bytes, rs: seq<Frame>)
    ensures front + U32(|rs|) + EncodeAll(rs) == front + EncodeBatch(rs)
  {
    hide U32, EncodeAll;
  }

  lemma AllowedLength(fs: seq<Frame>, exact: seq<Frame>, rs: seq<Frame>)
    requires AllAllowed(fs, exact, rs)
    ensures |rs| == |fs|
  {
  }
}
