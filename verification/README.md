# oxicache, modelled in Dafny

oxicache is an in-memory cache server with a Rust and a TypeScript client. This project models the
parts of it whose correctness rests on invariants, and proves those invariants and what they are for.
Every property is stated for all inputs, all states satisfying the invariant, or all runs.

| file | what it models |
|---|---|
| `Bits`, `Base` | bitwise arithmetic on words, shared types |
| `Cuckoo`, `CuckooWalks`, `CuckooIndex` | the index: a cuckoo hash table as an array of slots that refines a finite map, with random-walk displacement and growth |
| `CuckooReaders` | the same index as single stores of one writer interleaved with single loads of a lock-free reader |
| `QueueCosts`, `EvictionRules`, `S3Fifo`, `ShardedCache` | one S3-FIFO shard with its byte accounts, ghost queue, eviction and compaction, and the cache over its shards |
| `Wire`, `BatchEncoding`, `FrameIO` | frames, batch bodies, the buffered reader and the writer that patches lengths late |
| `Server`, `ReadBack`, `BatchServer`, `CacheBatch`, `Connection` | requests, batches served by runs of equal ops on any cache and on the sharded one, a connection as a function of its input bytes |
| `RingHash`, `HashValues`, `Ring`, `Rings`, `RingTwins` | MurmurHash3 in both languages and its values at given inputs, the theory of the consistent-hash ring, both clients' rings, two servers on which skipping goes wrong |
| `TsReader` | the TypeScript frame reader |
| `Cluster`, `ClusterBatch` | a batch spread over servers and merged back |
| `ClientLink`, `ClientRuns`, `ClientRetry`, `ClientProgress` | one client's link: pipelined replies, losses, reconnects and retries, as a machine of steps; what every run keeps and what every state still allows |
| `SizeClasses`, `Slab`, `SlabMachine`, `SlabAllocator` | the slab allocator: its size classes, the ownership of its chunks over every history of steps, the operations |

`dafny verify dfyconfig.toml` verifies the project.

## Reading the model

- Code that updates state in place is a class or a method with loops, proved against functions of the
  old state. Protocols between threads or tasks (`CuckooReaders`, `ClientLink`) are machines of atomic
  steps. `SlabMachine` is one too: a history is a list of steps of all threads, and in `SlabAllocator`
  each section under one lock is a method that adds one step. `Others` stands for whatever other
  threads do in between; all that is known of it is that the history goes on by legal steps of theirs.
- The shard's index is a finite map, which is what `CuckooIndex.Index` is proved to refine. The index
  also keeps, as a ghost field, what readers could see after each of its stores, and that is proved to
  be a run of the writer in `CuckooReaders`.
- The cache behind `Server` and `Connection` is any state with a lookup, a store and a delete, so
  evictions are covered without being named.
- Hash values of keys, the kernel's choice of addresses, the servers' answers and the order in which
  they arrive are parameters. Integers are unbounded, with 32-bit wrap-around, signed conversion and
  truncation written out where the code depends on them.

Three properties one might expect do not hold of the code, and the exact conditions are proved.

- The TypeScript reader ors the length bytes into a signed integer. A header announcing 2^31 bytes or
  more passes the limit and is yielded as a frame (`TsReader.CutIsHead`,
  `TsReader.HugeLengthTakes`, `TsReader.HugeLengthPassesForAFrame`).
- Skipping a server on the full ring is not always what rebuilding without it gives, because a point of
  the skipped server may have displaced another server's: it is for every key if and only if none has
  (`Rings.SkippingIsRebuildingForKeys`). For the addresses 10.5.121.10:4439 and 10.53.81.10:4438 all have, and
  every key stays with the server that is out (`RingTwins.SkippingATwin`).
- A frame writer with inline limit 0 can queue empty pieces. It is flushed to a sink that always takes
  something if and only if the last piece holds bytes and no 64 in a row are empty
  (`FrameIO.FrameWriter.Flush`, `FrameIO.EmptyBodiesStall`). No writer in the repository has that limit.

An item in a batch and the same request sent alone differ in two ways that `Server.BatchMeansItemByItem`
states as hypotheses: AUTH, PING and BATCH are refused inside a batch, and a response over the limit is
refused as a whole.

## Model

| member | source | states |
|---|---|---|
| Cuckoo.AltInvolution | crates/server/src/cache/table.rs:99-105 | the other bucket of the other bucket is the bucket itself, for every tag and table size |
| Cuckoo.AltHasNoFixedPoint | crates/server/src/cache/table.rs:99-105 | a key's two buckets always differ (the multiplied tag is forced odd) |
| Cuckoo.HashParts | crates/server/src/cache/table.rs:84-87 | the home bucket is the hash modulo the number of buckets, the tag its top sixteen bits |
| Cuckoo.StoreAdds | crates/server/src/cache/table.rs:385-391 | one store into an empty slot of a candidate bucket adds exactly that entry to the map the table means |
| Cuckoo.StoreReplaces | crates/server/src/cache/table.rs:324-333 | one store over the slot holding the key replaces exactly that entry |
| Cuckoo.ClearRemoves | crates/server/src/cache/table.rs:349-375 | clearing one slot removes exactly that key |
| Cuckoo.MoveKeepsView | crates/server/src/cache/table.rs:401-406 | moving a word to an empty slot of its other bucket keeps every key in one of its buckets, once, and the map unchanged |
| Cuckoo.WalkExtends | crates/server/src/cache/table.rs:419-446 | a walk stays a walk when it takes a slot it has not visited and turns to that word's other bucket |
| Cuckoo.DisplacementStarts | crates/server/src/cache/table.rs:381-412 | a path found in a good table is one that can be applied backwards |
| Cuckoo.HopKeepsDisplacing | crates/server/src/cache/table.rs:401-406 | each backward hop keeps all residents reachable and moves the hole one step towards the new key's bucket |
| Cuckoo.DisplacementEnds | crates/server/src/cache/table.rs:401-407 | storing the new word in the last hole gives a good table whose map has exactly the new key added |
| Cuckoo.PathApplication | crates/server/src/cache/table.rs:381-446 | applying a whole path backwards keeps every resident in one of its own two buckets, exactly once, and adds exactly the new key |
| Cuckoo.AtMostSixteenPerHash | crates/server/src/cache/table.rs:338-345 | no good table of any size holds more than 16 keys of one hash, which is why growing need not end |
| CuckooIndex.Table.FindIn | crates/server/src/cache/table.rs:131-157 | the slot of the key in the bucket, or no slot with its tag holds it |
| CuckooIndex.Table.EmptySlot | crates/server/src/cache/table.rs:497-500 | the leftmost empty slot of the bucket, or every slot is taken |
| CuckooWalks.LeadsMeans | crates/server/src/cache/table.rs:423-443 | a walk succeeds if and only if within 256 hops it meets a bucket with room having drawn no slot twice |
| CuckooWalks.NextHop | crates/server/src/cache/table.rs:426-441 | one hop: the slot drawn from the generator, the word's other bucket, and when the walk ends there |
| CuckooWalks.SeedsNeverMerge | crates/server/src/cache/table.rs:427-429 | the generator never takes two seeds to the same one, each has its inverse |
| CuckooIndex.Table.Find | crates/server/src/cache/table.rs:131-157 | finds a key if and only if the map has it, in the slot holding its entry |
| CuckooIndex.Index.constructor | crates/server/src/cache/table.rs:263-274 | a new index is the empty map, and its history for readers begins with that state |
| CuckooIndex.Index.FindPath | crates/server/src/cache/table.rs:419-446 | a path is found if and only if one of the four walks, each seeded where the one before stopped, leads to room; it starts in a candidate bucket, never revisits a slot, follows other buckets and ends at an empty slot |
| CuckooIndex.Index.WalkOnce | crates/server/src/cache/table.rs:423-443 | one walk: succeeds exactly when the walk of that seed leads to room, its path being the slots drawn, and leaves the seed where the draws stopped |
| CuckooIndex.Index.Place | crates/server/src/cache/table.rs:381-412 | succeeds if and only if the hash has a free slot in one of its buckets or one of the walks leads to room, displacing only without a free slot; success adds exactly the entry to the map, by one store into an empty slot or by the path applied, failure leaves every slot as it was; a live displacement bumps the counter twice |
| CuckooIndex.Index.Displace | crates/server/src/cache/table.rs:392-412 | succeeds if and only if one of the walks leads to room, and then the path applied adds exactly the entry, between two bumps of the counter in a live table |
| CuckooIndex.Index.Shift | crates/server/src/cache/table.rs:401-407 | the in-place loop computes the backward application of the path |
| CuckooIndex.Index.Grow | crates/server/src/cache/table.rs:448-480 | growing, abandoned doublings included, changes neither the map nor the count, and readers see it as one store; every smaller size tried refused an entry of the table |
| CuckooIndex.Index.Refill | crates/server/src/cache/table.rs:454-467 | copying all words into a larger empty table yields the same map, or stops at an entry for which a table holding the earlier ones has no place |
| CuckooIndex.Index.Insert | crates/server/src/cache/table.rs:324-346 | replaces and returns the old entry or adds the new one; a table below seven eighths with a place for the key stays the live one, any other is outgrown; gives up only after all the tables allowed; the count is the size of the map; what it does is a run of single stores of the reader model |
| CuckooIndex.Index.Remove | crates/server/src/cache/table.rs:349-356 | removes exactly the key and returns what it held, by one store of the reader model |
| CuckooIndex.Index.RemoveIfSame | crates/server/src/cache/table.rs:359-375 | removes the key if and only if it still holds the very same entry |
| CuckooReaders.WriterKeepsConsistent | crates/server/src/cache/table.rs:324-412 | every single store of the writer keeps the shared state consistent and changes the map exactly as the step says |
| CuckooReaders.LiveWordIsCurrent | crates/server/src/cache/table.rs:303-321 | in every state, mid-displacement too, a word in the live table is its key's current entry |
| CuckooReaders.DisplacementCompletes | crates/server/src/cache/table.rs:397-412 | the writer's separate stores add up to the path applied at once, between two bumps of the counter |
| CuckooReaders.MoveShows | crates/server/src/cache/table.rs:397-412 | a displacement of the sequential index is, from the first bump of the counter to the second, a run of single stores that readers may interleave with |
| CuckooReaders.SwapShows | crates/server/src/cache/table.rs:448-480 | publishing a rebuilt table is one store |
| CuckooReaders.HitStaysAhead | crates/server/src/cache/table.rs:303-321 | between displacements a slot the reader has not passed keeps holding the key across any writer step |
| CuckooReaders.ReaderCanStep | crates/server/src/cache/table.rs:303-321 | a reader that has not answered can always make its next load |
| CuckooReaders.RunInvariant | crates/server/src/cache/table.rs:303-480 | in every interleaving of stores and loads the state is consistent and the reader has only seen values current during its call |
| CuckooReaders.GetReturnsACurrentValue | crates/server/src/cache/table.rs:303-321 | whatever a lookup returns was the key's value at some moment of the call, over every interleaving with insert, replace, remove, displacement and table swap |
| CuckooReaders.PresentKeyIsNeverMissed | crates/server/src/cache/table.rs:303-321 | a key present throughout the call is found |
| CuckooReaders.QuietReaderEnds | crates/server/src/cache/table.rs:303-321 | once the writer stays idle a reader answers within 37 loads, wherever it stood |
| CuckooReaders.QuietReadIsCurrent | crates/server/src/cache/table.rs:303-321 | a lookup with the writer idle takes at most 19 loads and returns the value the key has |
| CuckooReaders.FreshIndexIsConsistent | crates/server/src/cache/table.rs:263-274 | the empty index satisfies the invariant |
| QueueCosts.LiveCostIsSetCost | crates/server/src/cache/s3fifo.rs:264-266 | the summed cost of the live entries of a queue is the cost of the set of them |
| QueueCosts.CostsOfKill | crates/server/src/cache/s3fifo.rs:552-558 | marking an entry dead moves exactly its cost from the live to the dead sum |
| QueueCosts.KeptCosts | crates/server/src/cache/s3fifo.rs:610-648 | compaction keeps the live cost and leaves no dead cost |
| QueueCosts.KeptMembers | crates/server/src/cache/s3fifo.rs:625-648 | compaction keeps exactly the live entries, without duplicates |
| QueueCosts.VictimIsUnique | crates/server/src/cache/s3fifo.rs:585-607 | the clock rule names one victim |
| QueueCosts.TurningStep | crates/server/src/cache/s3fifo.rs:585-607 | each turn of the main queue lowers one frequency and moves the clock on |
| QueueCosts.TurningEnds | crates/server/src/cache/s3fifo.rs:585-607 | the entry the loop stops at is the victim of the clock rule, and the queue left is the original rotated to it |
| QueueCosts.IndexCosts | crates/server/src/cache/s3fifo.rs:264-266 | an index costs its key and value bytes and 128 an entry |
| EvictionRules.VictimsAreDue | crates/server/src/cache/s3fifo.rs:510-607 | in every run of turns, whoever is evicted is, in the state it leaves, the head of small and read at most once, or the earliest entry of the lowest level in main |
| EvictionRules.PushedKeepsNewest | crates/server/src/cache/s3fifo.rs:360-368 | the ghost queue keeps everything up to 64 hashes or the length of main, the newest of that many beyond, and forgets exactly what it drops |
| EvictionRules.ServesOneWay | crates/server/src/cache/s3fifo.rs:510-607 | a turn of the eviction loop leaves no choice: what goes and the queues after it are determined |
| EvictionRules.RunIsDetermined | crates/server/src/cache/s3fifo.rs:510-524 | so is the whole run that makes a given room from given queues |
| EvictionRules.LastVictimNeeded | crates/server/src/cache/s3fifo.rs:510-524 | without its last victim the room would not have sufficed |
| S3Fifo.UsedIsIndexCost | crates/server/src/cache/s3fifo.rs:495-534 | the used counter is the cost of everything in the index |
| S3Fifo.Compact | crates/server/src/cache/s3fifo.rs:625-648 | in-place compaction is the stable selection of live entries, permutes the array and returns the live cost |
| S3Fifo.Shard.constructor | crates/server/src/cache/s3fifo.rs:438-457 | a new shard is empty and satisfies the invariant |
| S3Fifo.Shard.Conservation | crates/server/src/cache/s3fifo.rs:355-618 | used, small and dead bytes are the summed costs of the index, the small queue and the dead queued entries; every queued byte is live or dead; dead bytes stay within a quarter; sets performed = live + replaced + deleted + evicted; the ghost set lies within its order |
| S3Fifo.Shard.UsedIsBytes | crates/server/src/cache/s3fifo.rs:264-266 | used bytes are the summed lengths of the keys and values in the index and 128 an entry |
| S3Fifo.Shard.GhostTake | crates/server/src/cache/s3fifo.rs:356-358 | a remembered hash is forgotten; the set stays within the order |
| S3Fifo.Shard.GhostPush | crates/server/src/cache/s3fifo.rs:360-368 | the hash is appended and the oldest dropped until the limit holds; the set stays within the order |
| S3Fifo.Shard.Kill | crates/server/src/cache/s3fifo.rs:552-558 | the three counters stay the sums they stand for |
| S3Fifo.Shard.EvictSmall | crates/server/src/cache/s3fifo.rs:562-583 | the head leaves the small queue: dropped if dead, promoted with frequency reset if read more than once, otherwise evicted and remembered |
| S3Fifo.Shard.EvictMain | crates/server/src/cache/s3fifo.rs:585-607 | terminates and evicts exactly the clock rule's victim: the earliest entry of the lowest level, the others' frequencies lowered and the queue turned behind it |
| S3Fifo.Shard.EvictStep | crates/server/src/cache/s3fifo.rs:510-519 | one turn is the rules': small is served while it holds its share or main is empty, main by its clock otherwise, and nothing only when both are empty |
| S3Fifo.Shard.CheckFits | crates/server/src/cache/s3fifo.rs:480-489 | refuses exactly the entries whose key, value and 128 bytes exceed the shard, with cost and capacity |
| S3Fifo.Shard.Link | crates/server/src/cache/s3fifo.rs:495-509 | the new entry replaces what its key held, which is dead from then on |
| S3Fifo.Shard.MakeRoom | crates/server/src/cache/s3fifo.rs:510-524 | a run of turns, each needed for the room, ending as soon as the entry fits or nothing is queued; exactly its victims have left the index |
| S3Fifo.Shard.Join | crates/server/src/cache/s3fifo.rs:525-531 | a remembered hash joins the main queue and is forgotten, any other joins the small one |
| S3Fifo.Shard.MaybeCompact | crates/server/src/cache/s3fifo.rs:610-617 | drops the dead from both queues exactly when they pass a quarter of the capacity |
| S3Fifo.Shard.Set | crates/server/src/cache/s3fifo.rs:495-534 | the queues, frequencies and ghost queue afterwards are determined: the old entry dies, the run of turns that makes room, the new entry joins main if its hash is remembered and small otherwise, compaction; used bytes within capacity for every entry that fits; the new entry survives; the index is the old one with the entry, less the victims; the last eviction was needed and none happens while everything fits; an oversized entry ends up alone |
| S3Fifo.Shard.Del | crates/server/src/cache/s3fifo.rs:537-545 | removes exactly the key, returning what it held, and counts it; the queues are the old ones with that entry dead, compacted when due |
| S3Fifo.Shard.Get | crates/server/src/cache/s3fifo.rs:305-313 | a hit raises the entry's frequency up to the cap and changes nothing else |
| ShardedCache.ShardInRange | crates/server/src/cache/mod.rs:59-71 | the top bits of any hash name one of the shards |
| ShardedCache.ShardIsRange | crates/server/src/cache/mod.rs:59-71 | shard i holds exactly the hashes of the i-th of the equal consecutive ranges |
| ShardedCache.ShareBound | crates/server/src/cache/mod.rs:47-57 | the shards' shares together are within the capacity |
| ShardedCache.LatestIsPart | crates/server/src/cache/mod.rs:59-71 | a shard's latest entries are the keys of the whole map that hash to it, at the same cost |
| ShardedCache.EntriesCostTheirMap | crates/server/src/cache/s3fifo.rs:264-266 | entries cost what their keys and values cost |
| ShardedCache.Cache.constructor | crates/server/src/cache/mod.rs:47-57 | a new cache is empty, with a power of two of shards of equal shares |
| ShardedCache.Cache.WithinCapacity | crates/server/src/cache/mod.rs:247-249 | the used bytes of all shards are the bytes of all resident keys and values and 128 an entry, and never exceed the configured capacity |
| ShardedCache.Cache.Holds | crates/server/src/cache/mod.rs:75-97 | a resident entry is the latest value of its key, and without evictions every key of the ideal map is resident |
| ShardedCache.Cache.Get | crates/server/src/cache/mod.rs:75-97 | returns nothing or the value of the latest set not followed by a delete; exactly that while nothing was evicted |
| ShardedCache.Cache.CheckAll | crates/server/src/cache/mod.rs:150-163 | a batch of sets is refused exactly when some key, value and 128 bytes exceed a shard's share, for the first such entry |
| ShardedCache.Cache.Store | crates/server/src/cache/mod.rs:138-173 | the map gains the value, which is found right after; other shards are untouched; no eviction while the keys of that shard fit |
| ShardedCache.Cache.GetMany | crates/server/src/cache/mod.rs:100-135 | slot i is the lookup of key i, nothing moves |
| ShardedCache.Cache.SetMany | crates/server/src/cache/mod.rs:150-173 | refuses the whole list, leaving every shard as it was, exactly when some key, value and 128 bytes exceed a shard's share; else stores all of it in order; evicts nothing while every step fits |
| ShardedCache.Cache.DelMany | crates/server/src/cache/mod.rs:185-218 | removes exactly the keys; slot i says whether key i was there and not already deleted earlier in the list |
| Wire.U32RoundTrip | crates/wire/src/lib.rs:84-98 | every length below 2^32 is read back from its four bytes |
| Wire.FromU32RoundTrip | crates/wire/src/lib.rs:84-98 | every four bytes are written back from the number they stand for |
| Wire.HeaderReadsBack | crates/wire/src/lib.rs:84-98 | an encoded header decodes to its tag and length, leaving what follows |
| Wire.HeaderWritesBack | crates/wire/src/lib.rs:84-98 | a frame cut off a stream, encoded again, is the bytes it was cut from |
| Wire.SplitCount | crates/wire/src/lib.rs:122-129 | splits off a count if and only if four bytes are there, with the shortfall otherwise |
| Wire.SplitLen | crates/wire/src/lib.rs:132-139 | splits at a length if and only if so many bytes are there, with the shortfall otherwise |
| Wire.SetRoundTrip | crates/wire/src/lib.rs:143-173 | key and value come back from an encoded SET body |
| Wire.SetBody | crates/wire/src/lib.rs:170-173 | whatever is accepted is the encoding of the key and value returned |
| Wire.BatchRoundTrip | crates/wire/src/lib.rs:187-326 | every list of up to the limit of items decodes to itself |
| Wire.AcceptedBodyIsOneEncoding | crates/wire/src/lib.rs:283-326 | an accepted body is the encoding of exactly one list |
| Wire.DecodeBatch | crates/wire/src/lib.rs:283-326 | an accepted body is the encoding of the list it decodes to, within the item limit |
| BatchEncoding.Validate | crates/wire/src/lib.rs:283-300 | one pass accepts exactly the bodies that decode, with the decoder's error otherwise |
| BatchEncoding.Frames.Next | crates/wire/src/lib.rs:302-321 | iteration over a validated body yields its items in order and never runs out of bytes |
| BatchEncoding.BatchEncoder.Push | crates/wire/src/lib.rs:255-259 | appends exactly one item to the encoded list |
| BatchEncoding.BatchEncoder.Set | crates/wire/src/lib.rs:221-224 | appends exactly one SET item |
| BatchEncoding.BatchEncoder.SetWith | crates/wire/src/lib.rs:229-245 | appends the item with its length patched in, or, when the value fails, leaves buffer and count as they were |
| BatchEncoding.BatchEncoder.Finish | crates/wire/src/lib.rs:262-270 | the patched buffer is the encoding of all items and decodes to them |
| FrameIO.HeadOfEncoded | crates/wire/src/io.rs:51-91 | a stream that opens with an encoded frame yields that frame and leaves the rest |
| FrameIO.HeadIsEncoded | crates/wire/src/io.rs:51-91 | a frame at the head of a stream is there byte for byte |
| FrameIO.FramesOfEncoded | crates/wire/src/io.rs:51-91 | a stream of encoded frames and a rest holds exactly those frames, then those of the rest |
| FrameIO.FrameReader.NextBuffered | crates/wire/src/io.rs:51-91 | yields what the unread bytes hold next and releases the frame lent before; an oversized frame is refused before its body arrives |
| FrameIO.FrameReader.Fill | crates/wire/src/io.rs:108-134 | the unread bytes grow by exactly what was read |
| FrameIO.Offer | crates/wire/src/io.rs:312-319 | the slices offered to one write are exactly the next 64 pieces, or all that are left |
| FrameIO.Advance | crates/wire/src/io.rs:324-334 | after a short write the position is exactly the bytes written further, in the first piece that still has some or at the start of one |
| FrameIO.FrameWriter.Spill | crates/wire/src/io.rs:261-264 | the queued bytes and every mark survive a spill |
| FrameIO.FrameWriter.PutSlice | crates/wire/src/io.rs:270-276 | the queued bytes grow by exactly the slice |
| FrameIO.FrameWriter.PutBytes | crates/wire/src/io.rs:279-289 | copied or shared, the queued bytes grow by exactly the body |
| FrameIO.FrameWriter.PutFrame | crates/wire/src/io.rs:292-295 | the queued bytes grow by exactly the encoded frame |
| FrameIO.FrameWriter.Begin | crates/wire/src/io.rs:210-222 | a header with length zero is queued and marked where it stands |
| FrameIO.FrameWriter.Since | crates/wire/src/io.rs:226-228 | the body bytes queued since the mark |
| FrameIO.FrameWriter.End | crates/wire/src/io.rs:231-242 | the length behind the mark becomes the true one, in whatever piece it is, and nothing else changes |
| FrameIO.OverwriteIsFrame | crates/wire/src/io.rs:210-242 | begin, any body and end leave what stood before, then that body as one encoded frame |
| FrameIO.FrameWriter.Abort | crates/wire/src/io.rs:246-258 | the queued bytes are what they were before begin |
| FrameIO.FrameWriter.Flush | crates/wire/src/io.rs:307-342 | emits exactly the queued bytes, or a prefix of them on failure, with everything then still queued; a sink that always takes something is flushed if and only if the last piece holds bytes and no 64 pieces in a row are empty, which a positive inline limit guarantees |
| FrameIO.FlushableUnlessStuck | crates/wire/src/io.rs:307-342 | that condition holds if and only if there is no place from which one write would offer nothing |
| FrameIO.EmptyBodiesStall | crates/wire/src/io.rs:279-342 | with inline limit 0, 64 empty bodies in front of a byte are never flushed, not even to a sink that takes all it is offered |
| FrameIO.FrameWriter.TakeBytes | crates/wire/src/io.rs:356-374 | returns exactly the queued bytes and leaves nothing |
| Server.RunSplits | crates/server/src/tcp.rs:623-723 | executing a list is executing any prefix and then the rest |
| Server.BatchMeansItemByItem | crates/server/src/tcp.rs:553-723 | a batch of GET, SET and DEL items whose response fits answers each item as if it had been sent alone |
| Server.BatchLeavesSameCache | crates/server/src/tcp.rs:553-723 | and leaves the same cache whether or not the response fits |
| ReadBack.RunKeepsLastWrites | crates/server/src/tcp.rs:553-606 | after any list of items an exact cache holds under each key what the last item to touch it wrote, read off the items alone |
| ReadBack.RepliesReadLastWrites | crates/server/src/tcp.rs:553-606 | every GET reply carries that value byte for byte or says there is none; DEL and SET say whether there was one and whether it was taken |
| ReadBack.SetThenGet | crates/server/src/tcp.rs:562-594 | a value set is read back byte for byte, TooLarge if over the response limit, other keys answer as before, and after DEL there is nothing |
| ReadBack.LargeSetIsRefused | crates/server/src/tcp.rs:572-586 | a SET over the share is refused with its cost and changes nothing |
| BatchServer.GetMany | crates/server/src/tcp.rs:638-653 | a run of GETs served at once equals serving them one by one, each reply carrying the value found |
| BatchServer.DelMany | crates/server/src/tcp.rs:697-707 | a run of DELs served at once equals serving them one by one, each reply saying whether the key was there |
| BatchServer.SetMany | crates/server/src/tcp.rs:673-678 | a run of SETs is stored at once if all fit, else untouched |
| BatchServer.StoreRun | crates/server/src/tcp.rs:673-692 | with the fallback one by one it equals item-by-item execution |
| BatchServer.RunEnd | crates/server/src/tcp.rs:638-644 | the longest run of equal ops |
| BatchServer.SetRunEnd | crates/server/src/tcp.rs:654-672 | the parsed run of SETs, ended by another op or by a malformed SET with its error |
| BatchServer.ExecuteRun | crates/server/src/tcp.rs:623-723 | each run, of whatever kind, equals its items one by one |
| BatchServer.AllItems | crates/wire/src/lib.rs:302-326 | iterating a validated body yields exactly its items |
| BatchServer.RunAll | crates/server/src/tcp.rs:623-723 | all runs stream exactly the item-by-item replies, in order |
| BatchServer.Seal | crates/server/src/tcp.rs:714-722 | the streamed body is closed as one frame, or replaced by one TooLarge frame when over the limit |
| BatchServer.Batch | crates/server/src/tcp.rs:623-723 | exactly one reply frame: a decode error, the item-by-item replies, or TooLarge over the same final cache |
| BatchServer.Dispatch | crates/server/src/tcp.rs:553-606 | every request adds exactly one reply frame and the cache changes as for that request |
| CacheBatch.GetRun | crates/server/src/cache/mod.rs:100-135 | a run of GETs on the sharded cache: each reply is a miss or carries exactly the value the map holds, and is the map's while nothing was evicted |
| CacheBatch.DelRun | crates/server/src/cache/mod.rs:185-218 | the same for a run of DELs, repeated keys included, and exactly the keys are gone |
| CacheBatch.SetRun | crates/server/src/cache/mod.rs:150-173 | a run of SETs, stored at once or one by one after a refusal, gives the map's replies and contents, and evicts nothing while what the map then holds fits |
| CacheBatch.BatchOn | crates/server/src/tcp.rs:636-713 | a whole batch served by runs on the sharded cache: the contents item-by-item execution on one map would leave, and each streamed reply the map's or a miss; the map's replies and no evictions while every shard's keys fit its share |
| CacheBatch.ServeOn | crates/server/src/tcp.rs:623-723 | the same of the one frame sent: a refusal of the body, the sealed replies or TooLarge; every GET slot that is not a miss carries exactly the value the map holds at that item |
| Connection.HeadExtends | crates/wire/src/io.rs:51-91 | more input never changes a frame or refusal already found |
| Connection.ServingInParts | crates/server/src/tcp.rs:452-530 | serving what is there and then more equals serving all at once |
| Connection.RefusalIsFinal | crates/server/src/tcp.rs:452-530 | after the first refusal no further input has any effect |
| Connection.ChunkByChunk | crates/server/src/tcp.rs:452-530 | one more chunk leads from the outcome of the input so far to that of the longer input |
| Connection.OneReplyPerRequest | crates/server/src/tcp.rs:452-530 | once authenticated: one reply per complete frame, in order, each as if alone, then the refusal if one ends the stream |
| Connection.NothingBeforeAuth | crates/server/src/tcp.rs:452-530 | unless the first frame is AUTH with the token the cache is untouched: an incomplete frame is waited for, any other is answered Unauthorized or TooLarge and closes the connection; with it, the rest is an authenticated stream |
| Connection.ServeBuffered | crates/server/src/tcp.rs:452-530 | the inner loop over buffered frames computes the served session |
| Connection.Serve | crates/server/src/tcp.rs:452-530 | the bytes sent and the final cache depend only on the concatenated input, for every cutting into reads; a peer that stops taking bytes has received a prefix of the same replies |
| RingHash.RotlIsOr | crates/client-rs/src/ring.rs:36-48 | the two halves of a rotation do not overlap |
| RingHash.RustHash | crates/client-rs/src/ring.rs:52-68 | the Rust loop computes the hash function given here for every byte string |
| RingHash.RustTail | crates/client-rs/src/ring.rs:60-66 | the bytes left over are taken little-endian |
| HashValues.HashOfA | crates/client-rs/src/ring.rs:133-147 | that function has MurmurHash3's published value at a |
| HashValues.HashOfHello | crates/client-rs/src/ring.rs:133-147 | and at Hello, world!, which has three blocks and a tail |
| RingHash.TsHash | packages/client-ts/src/ring.ts:56-75 | the TypeScript loop over signed 32-bit integers computes the same hash |
| RingHash.TsTail | packages/client-ts/src/ring.ts:69-73 | the same for the bytes left over, taken from the end |
| RingHash.RotlAgrees | packages/client-ts/src/ring.ts:38-40 | rotation on signed integers is rotation of the words |
| RingHash.ScrambleAgrees | packages/client-ts/src/ring.ts:42-44 | the mixing multiplication agrees |
| RingHash.MixAgrees | packages/client-ts/src/ring.ts:60-68 | one block step agrees |
| RingHash.FmixAgrees | packages/client-ts/src/ring.ts:47-53 | the finaliser agrees and is unsigned |
| RingHash.BlockAgrees | packages/client-ts/src/ring.ts:61-65 | four bytes or-ed into a signed integer are their little-endian word |
| Ring.LessIsTotal | packages/client-ts/src/ring.ts:84-92 | the order of names is total and strict |
| Ring.RingsAgree | crates/client-rs/src/ring.rs:80-119 | the server a key goes to does not depend on the listing order |
| Ring.LosingAServerMovesOnlyItsKeys | crates/client-rs/src/ring.rs:80-119 | rebuilding without a server leaves the owner of every key it did not own, colliding points included |
| Ring.SkippingIsRebuildingUnlessHidden | crates/client-rs/src/ring.rs:80-119 | for one key, skipping a server reaches the same point of the same server as rebuilding without it if and only if that point was not hidden by a colliding point of the skipped server |
| Ring.SkippingIsRebuilding | crates/client-rs/src/ring.rs:80-119 | skipping a server is rebuilding without it for every hash if and only if none of its points hides a point of another server |
| Rings.SkippingIsRebuildingForKeys | crates/client-rs/src/ring.rs:52-119 | and, with the real points, for every key under the same condition |
| Ring.SkippingKeepsServer | crates/client-rs/src/ring.rs:80-119 | for one key the server alone is the same if and only if the rebuilt ring's point was not hidden or the first point left has the same owner |
| RingTwins.SameStateSameHash | crates/client-rs/src/ring.rs:52-68 | two prefixes of whole blocks that leave the hash in one state are never told apart by what follows |
| RingTwins.TwinsShareTheirPoints | crates/client-rs/src/ring.rs:80-102 | all 512 points of 10.5.121.10:4439 and 10.53.81.10:4438 coincide |
| RingTwins.SkippingATwin | crates/client-rs/src/ring.rs:80-119 | with the first of these two out, every key is still sent to it, while the ring rebuilt without it sends every key to the second |
| RingTwins.AskWithTwinOut | crates/client-rs/src/ring.rs:80-119 | and that is what the client computes |
| Rings.SortSorts | crates/client-rs/src/ring.rs:91-97 | the sort used on both sides orders by hash, then name, and permutes |
| Rings.ThinnedIsRing | crates/client-rs/src/ring.rs:91-98 | keeping the first of equal hashes leaves, at each hash, the least-named server that has it |
| Rings.RustRing | crates/client-rs/src/ring.rs:80-102 | the Rust constructor builds that ring from 512 points a server |
| Rings.TsRing | packages/client-ts/src/ring.ts:102-122 | the TypeScript constructor builds that ring |
| Rings.TsCompact | packages/client-ts/src/ring.ts:111-121 | its in-place compaction of two arrays is the thinning |
| Rings.TsSort | packages/client-ts/src/ring.ts:110 | sorting with the client's own comparison is that sort |
| Rings.TsCompare | packages/client-ts/src/ring.ts:85-92 | its name comparison is the bytewise order |
| Rings.PointTextReads | crates/client-rs/src/ring.rs:84-88 | the text hashed for a point is the server's name, a number sign and the point's number in decimal, and no two points share a text |
| Rings.LowerBound | packages/client-ts/src/ring.ts:131-139 | the binary search finds the first point at or after the hash |
| Rings.Locate | crates/client-rs/src/ring.rs:108-119 | the owner of the cyclically first point whose server is live, or of the first point when none is |
| Rings.RustPick | crates/client-rs/src/ring.rs:80-119 | hash, ring and search together pick the specified server |
| Rings.TsPick | packages/client-ts/src/ring.ts:102-146 | hash, ring and search together pick the specified server |
| Rings.ClientsAgree | packages/client-ts/src/ring.ts:56-146 | for all keys, listing orders and live sets the two clients pick the same server name |
| TsReader.SignedLenIsLen | packages/client-ts/src/wire.ts:383-396 | the length the client reads is the true one below 2^31 and negative from there on |
| TsReader.CutIsHead | packages/client-ts/src/wire.ts:347-398 | one parsing step finds what the byte string holds next if and only if the header announces less than 2^31 bytes; any other header is taken for a frame |
| TsReader.HugeLengthTakes | packages/client-ts/src/wire.ts:347-398 | exactly what any longer announcement is taken for: the frame, its body and where parsing goes on |
| TsReader.HugeLengthPassesForAFrame | packages/client-ts/src/wire.ts:383-396 | a header announcing 2^32 - 1 bytes is yielded as an empty frame and parsing goes on inside that header |
| TsReader.CopyWithin | packages/client-ts/src/wire.ts:330-331 | the overlapping move to the front keeps the live bytes |
| TsReader.Reader.CopyIn | packages/client-ts/src/wire.ts:326-344 | in place, compacted or grown, the buffered bytes grow by exactly the chunk |
| TsReader.Reader.Push | packages/client-ts/src/wire.ts:312-324 | the unparsed input grows by exactly the chunk, carried over or parsed in place |
| TsReader.Reader.Next | packages/client-ts/src/wire.ts:347-380 | for every mix of push and next: the next frame of the concatenated stream, a refusal of an oversized one, or null only when all complete frames were yielded |
| Cluster.RankIsPlace | crates/client-rs/src/cluster.rs:447-453 | every item is in the share of its server, at the rank its place is recorded for |
| Cluster.PlaceIsRank | crates/client-rs/src/cluster.rs:447-453 | every recorded place belongs to an item of that server, of that rank |
| Cluster.ItemIsLocal | crates/client-rs/src/cluster.rs:422-433 | on an exact map an item is answered from its key alone and changes nothing else |
| Cluster.ShareMeansWhole | crates/client-rs/src/cluster.rs:410-487 | a server given its share answers each item as the whole batch run in order on one map would, and agrees with that map afterwards |
| ClusterBatch.IndexReplies | crates/client-rs/src/lib.rs:683-701 | succeeds exactly on a complete reply, each slot then reading as its item's reply; else the failure is the answer's |
| ClusterBatch.Merge | crates/client-rs/src/cluster.rs:492-517 | copies a complete reply behind the others, each item readable at its place, no other place touched; on failure nothing changes |
| ClusterBatch.Route | crates/client-rs/src/cluster.rs:420-433 | the server of every item and whether there is more than one, or the error of the first item whose key cannot be read |
| ClusterBatch.Spread | crates/client-rs/src/cluster.rs:447-453 | each server's items and their places, in order |
| ClusterBatch.Collect | crates/client-rs/src/cluster.rs:462-487 | for every arrival order: succeeds exactly if all answers merge, each place then reading as its own server's answer; else the failure is that of the first answer to arrive that does not merge |
| ClusterBatch.AskOne | crates/client-rs/src/cluster.rs:440-446 | a batch for one server goes there as encoded, with the same result as if it had been split |
| ClusterBatch.Batch | crates/client-rs/src/cluster.rs:410-487 | the whole call: limit, malformed items, empty batch, one server or many; slot i is the answer of item i's server to item i, whatever order answers arrive in |
| ClusterBatch.ClusterIsOneServer | crates/client-rs/src/cluster.rs:410-517 | with every server an exact map, slot i reads as the reply of running the whole batch in order on one map, and the servers asked hold their part of that map afterwards |
| ClientLink.IoKeepsLine | crates/client-rs/src/lib.rs:875-1019 | every step of writer, reader and server keeps waiters and requests on the wire in the same order |
| ClientLink.IoKeepsOwed | crates/client-rs/src/lib.rs:875-1019 | no step strands a waiter |
| ClientLink.ReadMatches | crates/client-rs/src/lib.rs:956-1019 | the reply read is the one to the oldest waiter's own request, so the stream is never out of step |
| ClientLink.CallThroughIo | crates/client-rs/src/lib.rs:956-1019 | a reply read for a call ends it with the reply to its own request |
| ClientLink.LockKeeps | crates/client-rs/src/lib.rs:470-500 | a caller that gets the lock finds a usable link, condemns it, shares a failure or starts the one attempt, keeping the invariant |
| ClientLink.EndKeeps | crates/client-rs/src/lib.rs:501-533 | however an attempt ends, link, counters and backoff stay consistent |
| ClientLink.DelayAfter | crates/client-rs/src/lib.rs:415-431 | each failure in a row doubles the wait up to the limit, a success resets it |
| ClientRuns.StepKeeps | crates/client-rs/src/lib.rs:452-634 | every step of callers, supervisor, keepalive, connections and cancellation keeps the invariant |
| ClientRuns.RunKeeps | crates/client-rs/src/lib.rs:452-634 | the invariant holds in every state of every run |
| ClientRuns.AnswerIsOwn | crates/client-rs/src/lib.rs:618-634 | in every run each completed call got the reply to its own request |
| ClientRuns.SendingPutsOn | crates/client-rs/src/lib.rs:367-389 | a call that sends on a connection still written to has its request there and waits |
| ClientRuns.AtMostTwoConnections | crates/client-rs/src/lib.rs:618-634 | over a whole run a request appears on at most two connections |
| ClientRetry.CallMoves | crates/client-rs/src/lib.rs:618-634 | whatever step is taken, a call makes one of its own moves: in particular the first loss of its connection sends it to look for another, the second ends it |
| ClientRetry.ClosedMeansTriedTwice | crates/client-rs/src/lib.rs:618-634 | over a run: a call told that its connection closed has been on two different connections |
| ClientRetry.FirstLossIsRetried | crates/client-rs/src/lib.rs:625-630 | over a run: the loss of the only connection a call has been on leaves it looking for another one |
| ClientProgress.WaitingCanBeAnswered | crates/client-rs/src/lib.rs:956-1019 | in every state a call that waits on a working connection can be answered, whatever is queued before it |
| ClientProgress.AttemptCanSucceed | crates/client-rs/src/lib.rs:501-512 | an attempt can succeed, and brings the link up with its call about to send on the new connection |
| ClientProgress.LostCallCanBeAnswered | crates/client-rs/src/lib.rs:618-634 | in every state a call whose first connection is gone can be answered on a new one |
| ClientProgress.FreshCallCanBeAnswered | crates/client-rs/src/lib.rs:618-634 | so can a new call, on the connection there is or on a new one |
| ClientRuns.DeadInRun | crates/client-rs/src/lib.rs:452-533 | once dead, the link stays dead of the same cause |
| ClientRuns.RefusedTokenIsForever | crates/client-rs/src/lib.rs:452-533 | a refused token ends the client in every later state, for this caller and every later one |
| ClientRuns.CondemnedIsForever | crates/client-rs/src/lib.rs:470-492 | so does a connection condemned by what it read, from the next caller with the lock on |
| ClientRuns.OtherFailuresAreSetbacks | crates/client-rs/src/lib.rs:501-533 | any other failed attempt is a setback: told to its caller, counted, and the link not dead |
| ClientRuns.BackoffInRun | crates/client-rs/src/lib.rs:415-431 | in every state of every run the delay is 100 ms doubled for each failure since the last success, 5 s at most |
| ClientRuns.FailureIsShared | crates/client-rs/src/lib.rs:470-501 | over a run: a caller that queued, saw an attempt end and finds the latest one failed when it gets the lock starts no attempt of its own |
| ClientRuns.OneAttemptAtATime | crates/client-rs/src/lib.rs:470-533 | in every state of every run at most one call is opening a connection |
| ClientRuns.ClosedMeansGone | crates/client-rs/src/lib.rs:367-389 | a caller is told its connection closed only when a task of it is gone, and can be told once both are |
| ClientProgress.LossIsNoticed | crates/client-rs/src/lib.rs:367-389 | whatever ends the two tasks of a connection, in either order, nobody is kept waiting on it, and a failed write or the end of the stream is recorded |
| ClientProgress.LostCallersAreTold | crates/client-rs/src/lib.rs:367-389 | so every call waiting on it can be told |
| ClientRuns.CauseInRun | crates/client-rs/src/lib.rs:875-1019 | over a run: the first cause recorded for the loss of a connection stays |
| SizeClasses.ClassFits | crates/server/src/cache/slab.rs:41-54 | the class fits, the one before does not, padding stays below a quarter plus a step; only larger sizes are refused |
| SizeClasses.ClassIsSmallest | crates/server/src/cache/slab.rs:41-65 | a class is below the chosen one if and only if its chunks are too small |
| SizeClasses.ClassServesItself | crates/server/src/cache/slab.rs:58-65 | every class serves its own size, a whole number of cache lines |
| SizeClasses.BatchBound | crates/server/src/cache/slab.rs:69-71 | a batch is 1 to 32 chunks and at most 64 KiB, and one more would pass either |
| Slab.CarveOne | crates/server/src/cache/slab.rs:107-112 | a chunk carved at the cursor overlaps no chunk of any region and keeps the cursor clear |
| SlabMachine.StepKeeps | crates/server/src/cache/slab.rs:87-231 | every section under a lock and every use of a magazine keeps the lists, the magazines and the regions exact |
| SlabMachine.HistoryKeeps | crates/server/src/cache/slab.rs:87-231 | so after every history of steps of all threads: chunks aligned, disjoint, inside a region, each on the one list its owner names |
| SlabMachine.NoByteTwice | crates/server/src/cache/slab.rs:87-113 | after every history no byte belongs to two chunks, every chunk begins on a cache line and lies in a mapped region |
| SlabMachine.StepMovesCallers | crates/server/src/cache/slab.rs:189-231 | a step gives a chunk to a caller only if no caller has it, takes one back only if a caller does, and otherwise leaves what callers hold |
| SlabMachine.CallerHasIt | crates/server/src/cache/slab.rs:189-231 | a chunk given out and not taken back since is with a caller |
| SlabMachine.CallerGotIt | crates/server/src/cache/slab.rs:189-231 | a chunk with a caller was given out and not taken back since |
| SlabMachine.NeverWithTwoCallers | crates/server/src/cache/slab.rs:189-231 | in every history, between two steps that give a chunk out there is one that takes it back |
| SlabMachine.StepLeavesAlone | crates/server/src/cache/slab.rs:87-231 | a step of one thread leaves another's magazines and what it holds in hand, and no chunk goes away or changes class |
| SlabMachine.OthersLeaveAlone | crates/server/src/cache/slab.rs:87-231 | so does any continuation of the history by other threads |
| SlabAllocator.Allocator.MapRegion | crates/server/src/cache/slab.rs:123-153 | the trimmed mapping is aligned to a huge page and overlaps no region |
| SlabAllocator.Allocator.TakeListed | crates/server/src/cache/slab.rs:91-98 | under the list lock, one step: up to n chunks of the class and nothing else are in the thread's hand |
| SlabAllocator.Allocator.CarveChunks | crates/server/src/cache/slab.rs:99-113 | under the bump lock, one step: n new chunks in a row, in the old region or a fresh one, are in the thread's hand |
| SlabAllocator.Allocator.Refill | crates/server/src/cache/slab.rs:90-113 | whatever other threads do between the two locks, at least one chunk of the class and at most n |
| SlabAllocator.Allocator.Alloc | crates/server/src/cache/slab.rs:189-211 | an aligned chunk of the smallest class that fits, given out by the last step of the history, which no caller had before that step; nothing exactly for sizes over the limit |
| SlabAllocator.Allocator.FreeChunk | crates/server/src/cache/slab.rs:216-231 | one step: the chunk leaves its caller and no other caller's chunk moves; the magazine gives half back when it passes twice the batch |
| SlabAllocator.Allocator.EnterThread | crates/server/src/cache/slab.rs:181-184 | one step: a thread's magazines come into being empty |
| SlabAllocator.Allocator.FlushMagazine | crates/server/src/cache/slab.rs:116-118 | one step: a whole magazine goes to the free list |
| SlabAllocator.Allocator.ExitThread | crates/server/src/cache/slab.rs:171-179 | an exiting thread gives back every chunk of its magazines while others run |
| SlabAllocator.Allocator.OnePlace | crates/server/src/cache/slab.rs:73-119 | each carved chunk is in exactly one place: with its holder and on no list, or once on the one list of its class that its owner names; magazines stay within twice the batch |

## Left out

- CuckooIndex.Index.Insert: takes a bound on the number of doublings and reports giving up, with the map unchanged, where the code keeps doubling; with more than 16 keys of one hash the code never ends.
- CuckooIndex.Index.Grow: takes the same bound.
- Rings.SortSorts: an insertion sort stands for the libraries' sorts, of which only order and permutation are used.
- SlabAllocator.Allocator.MapRegion: the kernel is taken to hand out ascending addresses; callers rely only on the region being aligned and disjoint from earlier ones.
- ClientLink.DelayAfter: the clock is not modelled, so the length of the wait is stated but not that time passes.
- Weak memory ordering, epoch reclamation, reference counts and raw pointers: entries are identities, loads and stores are sequentially consistent.
- The packed slot word is a record of tag and entry; tags are compared as in the code.
- Hit, miss and retirement counters, metrics, prefetching and copying strategy.
- Error texts: a refusal carries what it is about, its wording is a parameter.
- Sockets, TLS, timeouts, connection limits, shutdown, the HTTP endpoint and the command line.
- MessagePack values: bodies are opaque bytes.
- The health word and failure policy of the cluster: a batch is routed under one fixed snapshot of live servers.
- The capacity policy of the reader's buffer: only the bytes it holds are modelled.
- The reply encoders and decoders of the TypeScript client, which mirror the Rust batch format.
- Even spread of keys over servers, which is statistical.
