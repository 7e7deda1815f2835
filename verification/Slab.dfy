/** The slab allocator: per-class free lists shared by all threads, a region being carved, and
    per-thread magazines in front of them. Every chunk ever carved has one owner at a time. */
module Slab {
  import opened SizeClasses

  const REGION := 0x80_0000

  type Thread = nat

  /** Where a chunk is: with a caller, in a thread's magazine, on the shared free list of its
      class, or held by a thread in the middle of a refill. */
  datatype Place = Caller | Magazine(t: Thread) | Listed | Hand(t: Thread)

  datatype Chunk = Chunk(cls: nat, region: nat, place: Place)

  predicate Distinct(s: seq<nat>) {
    forall i, j | 0 <= i < j < |s| :: s[i] != s[j]
  }

  /** `list` holds every chunk of the class at that place, each once, and nothing else. */
  ghost predicate Exactly(list: seq<nat>, own: map<nat, Chunk>, cls: nat, place: Place) {
    Distinct(list) && forall p: nat :: p in list <==> p in own && own[p].cls == cls && own[p].place == place
  }

  function Moved(own: map<nat, Chunk>, list: seq<nat>, place: Place): map<nat, Chunk> {
    map p | p in own :: if p in list then own[p].(place := place) else own[p]
  }

  predicate Apart(p: nat, n: nat, q: nat, m: nat) {
    p + n <= q || q + m <= p
  }

  /** Chunks are aligned to cache lines, inside a mapped region, and do not overlap. */
  ghost predicate ChunksOk(own: map<nat, Chunk>, regions: set<nat>) {
    && (forall p | p in own :: ChunkOk(p, own[p], regions))
    && forall p, q | p in own && q in own && p != q :: Clear(p, own[p], q, own[q])
  }

  predicate ChunkOk(p: nat, c: Chunk, regions: set<nat>) {
    && c.cls < CLASSES && p % 64 == 0 && c.region in regions
    && 0 < c.region <= p && p + ClassSize(c.cls) <= c.region + REGION
  }

  predicate Clear(p: nat, c: Chunk, q: nat, d: Chunk) {
    Apart(p, ClassSize(c.cls), q, ClassSize(d.cls))
  }

  ghost predicate RegionFree(base: nat, regions: set<nat>) {
    base > 0 && base % 64 == 0 && forall r | r in regions :: Apart(base, REGION, r, REGION)
  }

  ghost predicate RegionsOk(regions: set<nat>) {
    forall r, s | r in regions && s in regions && r != s :: Apart(r, REGION, s, REGION)
  }

  /** Between the cursor and the end of the region being carved there is no chunk yet. */
  ghost predicate BumpOk(cur: nat, end: nat, own: map<nat, Chunk>, regions: set<nat>) {
    || cur == end == 0
    || (&& end >= REGION && end - REGION in regions && end - REGION <= cur <= end && cur % 64 == 0 && end > REGION
        && forall p | p in own && own[p].region == end - REGION :: p + ClassSize(own[p].cls) <= cur)
  }

  /** No chunk reaches into what is left of the region being carved. */
  lemma CursorIsClear(own: map<nat, Chunk>, regions: set<nat>, cur: nat, end: nat, c: Chunk, p: nat)
    requires ChunksOk(own, regions) && RegionsOk(regions) && BumpOk(cur, end, own, regions)
    requires c.cls < CLASSES && end > 0 && cur + ClassSize(c.cls) <= end && p in own
    ensures p != cur && Clear(p, own[p], cur, c) && Clear(cur, c, p, own[p])
  {
    hide ClassSize;
    assert ChunkOk(p, own[p], regions);
    ClassServesItself(own[p].cls);
    ClassServesItself(c.cls);
    if own[p].region != end - REGION {
      assert Apart(own[p].region, REGION, end - REGION, REGION);
    }
  }

  /** One chunk carved at the cursor. */
  lemma CarveOne(own: map<nat, Chunk>, regions: set<nat>, cur: nat, end: nat, cls: nat, place: Place)
    requires ChunksOk(own, regions) && RegionsOk(regions) && BumpOk(cur, end, own, regions)
    requires cls < CLASSES && end > 0 && cur + ClassSize(cls) <= end
    ensures var own' := own[cur := Chunk(cls, end - REGION, place)];
            && cur !in own && ChunksOk(own', regions)
            && BumpOk(cur + ClassSize(cls), end, own', regions)
  {
    hide ClassSize, ChunksOk, RegionsOk;
    var c := Chunk(cls, end - REGION, place);
    forall p | p in own
      ensures p != cur && Clear(p, own[p], cur, c) && Clear(cur, c, p, own[p])
    {
      CursorIsClear(own, regions, cur, end, c, p);
    }
    NextLine(cur, cls);
    AddChunk(own, regions, cur, c);
  }

  lemma NextLine(cur: nat, cls: nat)
    requires cls < CLASSES && cur % 64 == 0
    ensures (cur + ClassSize(cls)) % 64 == 0
  {
    hide ClassSize;
    LineSized(cls);
  }

  lemma AddChunk(own: map<nat, Chunk>, regions: set<nat>, at: nat, c: Chunk)
    requires ChunksOk(own, regions) && ChunkOk(at, c, regions)
    requires forall p | p in own :: Clear(p, own[p], at, c) && Clear(at, c, p, own[p])
    ensures ChunksOk(own[at := c], regions)
  {
    hide ChunkOk, Clear;
  }

  /** A list untouched by a move still holds exactly its chunks. */
  lemma MoveElsewhere(list: seq<nat>, own: map<nat, Chunk>, cls: nat, place: Place, moved: seq<nat>, to: Place)
    requires Exactly(list, own, cls, place)
    requires forall p | p in moved :: p in own && (own[p].cls != cls || own[p].place != place)
    requires to != place || forall p | p in moved :: own[p].cls != cls
    ensures Exactly(list, Moved(own, moved, to), cls, place)
  {
  }

  /** Taking a suffix off a list and moving it elsewhere leaves the rest. */
  lemma MoveSuffix(list: seq<nat>, own: map<nat, Chunk>, cls: nat, place: Place, keep: nat, to: Place)
    requires Exactly(list, own, cls, place) && keep <= |list| && to != place
    ensures Exactly(list[..keep], Moved(own, list[keep..], to), cls, place)
    ensures Distinct(list[keep..]) && forall p | p in list[keep..] :: p in own && own[p].cls == cls && own[p].place == place
  {
    assert list == list[..keep] + list[keep..];
  }

  /** Appending moved chunks to the list they move to. */
  lemma MoveOnto(list: seq<nat>, own: map<nat, Chunk>, cls: nat, place: Place, moved: seq<nat>)
    requires Exactly(list, own, cls, place) && Distinct(moved)
    requires forall p | p in moved :: p in own && own[p].cls == cls && own[p].place != place
    ensures Exactly(list + moved, Moved(own, moved, place), cls, place)
  {
    forall i, j | 0 <= i < j < |list + moved|
      ensures (list + moved)[i] != (list + moved)[j]
    {
      if i < |list| <= j {
        assert list[i] in list && moved[j - |list|] in moved;
      }
    }
  }

  lemma MoveKeepsChunks(own: map<nat, Chunk>, regions: set<nat>, cur: nat, end: nat, moved: seq<nat>, to: Place)
    requires ChunksOk(own, regions) && BumpOk(cur, end, own, regions)
    ensures ChunksOk(Moved(own, moved, to), regions) && BumpOk(cur, end, Moved(own, moved, to), regions)
  {
    hide ClassSize;
    var after := Moved(own, moved, to);
    assert forall p | p in own :: ChunkOk(p, own[p], regions) ==> ChunkOk(p, after[p], regions);
  }

  // ---- the lists of all classes ----

  ghost predicate ListsOk(own: map<nat, Chunk>, free: seq<seq<nat>>) {
    |free| == CLASSES && forall c: nat | c < CLASSES :: Exactly(free[c], own, c, Listed)
  }

  ghost predicate MagazineOk(own: map<nat, Chunk>, t: Thread, m: seq<seq<nat>>) {
    |m| == CLASSES && forall c: nat | c < CLASSES :: Exactly(m[c], own, c, Magazine(t)) && |m[c]| <= 2 * Batch(c)
  }

  ghost predicate MagazinesOk(own: map<nat, Chunk>, mags: map<Thread, seq<seq<nat>>>) {
    && (forall t | t in mags :: MagazineOk(own, t, mags[t]))
    && forall p | p in own && own[p].place.Magazine? :: own[p].place.t in mags
  }

  lemma ListsUntouched(own: map<nat, Chunk>, free: seq<seq<nat>>, moved: seq<nat>, to: Place)
    requires ListsOk(own, free) && !to.Listed? && forall p | p in moved :: p in own && !own[p].place.Listed?
    ensures ListsOk(Moved(own, moved, to), free)
  {
    hide Exactly, Moved;
    forall c: nat | c < CLASSES
      ensures Exactly(free[c], Moved(own, moved, to), c, Listed)
    {
      MoveElsewhere(free[c], own, c, Listed, moved, to);
    }
  }

  lemma ListsTake(own: map<nat, Chunk>, free: seq<seq<nat>>, cls: nat, keep: nat, to: Place)
    requires ListsOk(own, free) && !to.Listed? && cls < CLASSES && keep <= |free[cls]|
    ensures ListsOk(Moved(own, free[cls][keep..], to), free[cls := free[cls][..keep]])
    ensures Distinct(free[cls][keep..])
    ensures forall p | p in free[cls][keep..] :: p in own && own[p].cls == cls && own[p].place == Listed
  {
    hide Exactly, Moved;
    var moved := free[cls][keep..];
    MoveSuffix(free[cls], own, cls, Listed, keep, to);
    forall c: nat | c < CLASSES && c != cls
      ensures Exactly(free[c], Moved(own, moved, to), c, Listed)
    {
      MoveElsewhere(free[c], own, c, Listed, moved, to);
    }
  }

  lemma ListsGive(own: map<nat, Chunk>, free: seq<seq<nat>>, cls: nat, moved: seq<nat>)
    requires ListsOk(own, free) && cls < CLASSES && Distinct(moved)
    requires forall p | p in moved :: p in own && own[p].cls == cls && !own[p].place.Listed?
    ensures ListsOk(Moved(own, moved, Listed), free[cls := free[cls] + moved])
  {
    hide Exactly, Moved;
    MoveOnto(free[cls], own, cls, Listed, moved);
    forall c: nat | c < CLASSES && c != cls
      ensures Exactly(free[c], Moved(own, moved, Listed), c, Listed)
    {
      MoveElsewhere(free[c], own, c, Listed, moved, Listed);
    }
  }

  lemma MagazineUntouched(own: map<nat, Chunk>, t: Thread, m: seq<seq<nat>>, moved: seq<nat>, to: Place)
    requires MagazineOk(own, t, m) && to != Magazine(t)
    requires forall p | p in moved :: p in own && own[p].place != Magazine(t)
    ensures MagazineOk(Moved(own, moved, to), t, m)
  {
    hide Exactly, Moved, Batch;
    forall c: nat | c < CLASSES
      ensures Exactly(m[c], Moved(own, moved, to), c, Magazine(t))
    {
      MoveElsewhere(m[c], own, c, Magazine(t), moved, to);
    }
  }

  lemma MagazinesUntouched(own: map<nat, Chunk>, mags: map<Thread, seq<seq<nat>>>, moved: seq<nat>, to: Place)
    requires MagazinesOk(own, mags) && !to.Magazine? && forall p | p in moved :: p in own && !own[p].place.Magazine?
    ensures MagazinesOk(Moved(own, moved, to), mags)
  {
    hide MagazineOk;
    forall t | t in mags
      ensures MagazineOk(Moved(own, moved, to), t, mags[t])
    {
      MagazineUntouched(own, t, mags[t], moved, to);
    }
  }

  lemma MagazinesTake(own: map<nat, Chunk>, mags: map<Thread, seq<seq<nat>>>, t: Thread, cls: nat, keep: nat, to: Place)
    requires MagazinesOk(own, mags) && !to.Magazine? && t in mags && cls < CLASSES && |mags[t]| == CLASSES
    requires keep <= |mags[t][cls]|
    ensures MagazinesOk(Moved(own, mags[t][cls][keep..], to), mags[t := mags[t][cls := mags[t][cls][..keep]]])
    ensures Distinct(mags[t][cls][keep..])
    ensures forall p | p in mags[t][cls][keep..] :: p in own && own[p].cls == cls && own[p].place == Magazine(t)
  {
    hide Exactly, Batch;
    var m, moved := mags[t], mags[t][cls][keep..];
    MoveSuffix(m[cls], own, cls, Magazine(t), keep, to);
    forall c: nat | c < CLASSES && c != cls
      ensures Exactly(m[c], Moved(own, moved, to), c, Magazine(t))
    {
      MoveElsewhere(m[c], own, c, Magazine(t), moved, to);
    }
    forall u | u in mags && u != t
      ensures MagazineOk(Moved(own, moved, to), u, mags[u])
    {
      MagazineUntouched(own, u, mags[u], moved, to);
    }
  }

  lemma MagazinesGive(own: map<nat, Chunk>, mags: map<Thread, seq<seq<nat>>>, t: Thread, cls: nat, moved: seq<nat>)
    requires MagazinesOk(own, mags) && t in mags && cls < CLASSES && |mags[t]| == CLASSES && Distinct(moved)
    requires forall p | p in moved :: p in own && own[p].cls == cls && !own[p].place.Magazine?
    requires |mags[t][cls]| + |moved| <= 2 * Batch(cls)
    ensures MagazinesOk(Moved(own, moved, Magazine(t)), mags[t := mags[t][cls := mags[t][cls] + moved]])
  {
    hide Exactly, Batch;
    var m := mags[t];
    MoveOnto(m[cls], own, cls, Magazine(t), moved);
    forall c: nat | c < CLASSES && c != cls
      ensures Exactly(m[c], Moved(own, moved, Magazine(t)), c, Magazine(t))
    {
      MoveElsewhere(m[c], own, c, Magazine(t), moved, Magazine(t));
    }
    forall u | u in mags && u != t
      ensures MagazineOk(Moved(own, moved, Magazine(t)), u, mags[u])
    {
      MagazineUntouched(own, u, mags[u], moved, Magazine(t));
    }
  }

  /** A chunk just carved, in a thread's hand, is on no list. */
  lemma CarvedIsUnlisted(own: map<nat, Chunk>, free: seq<seq<nat>>, mags: map<Thread, seq<seq<nat>>>, at: nat, c: Chunk)
    requires ListsOk(own, free) && MagazinesOk(own, mags) && at !in own && c.place.Hand?
    ensures ListsOk(own[at := c], free) && MagazinesOk(own[at := c], mags)
  {
    hide Distinct, Batch;
    forall t | t in mags
      ensures MagazineOk(own[at := c], t, mags[t])
    {
      assert MagazineOk(own, t, mags[t]);
    }
  }
}
