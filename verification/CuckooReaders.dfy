/** One writer and one lock-free reader of the index, step by step: every shared load and
    store is a step of its own and the two interleave freely. */
module CuckooReaders {
  import opened Base
  import opened Cuckoo

  datatype TableState = TableState(slots: seq<Slot>, bits: nat)

  /** What the writer is in the middle of. `Shifting` and `Closing` lie between the two
      increments of the seqlock. */
  datatype Writer = Idle | Shifting(todo: seq<nat>, hole: nat, entry: Entry) | Closing

  /** Everything readers can load: every table ever published, the last one being live, and
      the seqlock. Retired tables stay readable and are never written again. */
  datatype Shared = Shared(tables: seq<TableState>, moving: nat, writer: Writer)

  /** One store of the writer. */
  datatype Store =
    | Add(at: nat, e: Entry)
    | Replace(at: nat, e: Entry)
    | Clear(at: nat)
    | BeginMove(path: seq<nat>, dest: nat, e: Entry)
    | Hop
    | StoreNew
    | EndMove
    | Swap(next: TableState)

  function Live(g: Shared): TableState
    requires g.tables != []
  {
    g.tables[|g.tables| - 1]
  }

  function WithSlot(g: Shared, p: nat, w: Slot): Shared
    requires g.tables != [] && p < |Live(g).slots|
  {
    var t := Live(g);
    g.(tables := g.tables[|g.tables| - 1 := t.(slots := t.slots[p := w])])
  }

  /** The map the index stands for at this moment. While entries are being shifted the hole
      shows a leftover copy, which does not count. */
  ghost function Current(g: Shared): map<Key, Entry>
    requires g.tables != []
  {
    match g.writer
    case Shifting(_, hole, _) => if hole < |Live(g).slots| then View(Live(g).slots[hole := Empty]) else map[]
    case _ => View(Live(g).slots)
  }

  ghost function ValueOf(g: Shared, key: Key): Option<Entry>
    requires g.tables != []
  {
    if key in Current(g) then Some(Current(g)[key]) else None
  }

  ghost predicate Consistent(g: Shared, hasher: Key -> nat) {
    && g.tables != []
    && (forall i | 0 <= i < |g.tables| :: InRange(g.tables[i].slots, g.tables[i].bits))
    && (g.moving % 2 == 0 <==> g.writer.Idle?)
    && match g.writer {
         case Shifting(todo, hole, e) =>
           && Displacing(Live(g).slots, Live(g).bits, hasher, todo, hole, Current(g))
           && e.key !in Current(g)
           && FitsAt(WordOf(e), Target(todo, hole), Live(g).bits, hasher)
         case _ => Good(Live(g).slots, Live(g).bits, hasher)
       }
  }

  /** The stores an operation may issue next, and the state each leaves. */
  ghost predicate Writes(g: Shared, st: Store, g': Shared, hasher: Key -> nat)
    requires g.tables != []
  {
    var t := Live(g);
    match st
    case Add(p, e) =>
      && g.writer.Idle? && p < |t.slots| && t.slots[p].Empty?
      && e.key !in View(t.slots) && FitsAt(WordOf(e), p, t.bits, hasher)
      && g' == WithSlot(g, p, WordOf(e))
    case Replace(p, e) =>
      && g.writer.Idle? && p < |t.slots| && Holds(t.slots[p], e.key) && e.hash == hasher(e.key)
      && g' == WithSlot(g, p, WordOf(e))
    case Clear(p) =>
      && g.writer.Idle? && p < |t.slots| && t.slots[p].Word?
      && g' == WithSlot(g, p, Empty)
    case BeginMove(path, dest, e) =>
      && g.writer.Idle? && dest < |t.slots| && t.slots[dest].Empty? && PathOk(t.slots, t.bits, path, dest)
      && e.key !in View(t.slots) && FitsAt(WordOf(e), Target(path, dest), t.bits, hasher)
      && g' == g.(moving := g.moving + 1, writer := Shifting(path, dest, e))
    case Hop =>
      && g.writer.Shifting? && g.writer.todo != []
      && var n := |g.writer.todo| - 1;
      var src := g.writer.todo[n];
      && g.writer.hole < |t.slots| && src < |t.slots|
      && g' == WithSlot(g, g.writer.hole, t.slots[src]).(writer := Shifting(g.writer.todo[..n], src, g.writer.entry))
    case StoreNew =>
      && g.writer.Shifting? && g.writer.todo == [] && g.writer.hole < |t.slots|
      && g' == WithSlot(g, g.writer.hole, WordOf(g.writer.entry)).(writer := Closing)
    case EndMove =>
      && g.writer.Closing?
      && g' == g.(moving := g.moving + 1, writer := Idle)
    case Swap(next) =>
      && g.writer.Idle? && InRange(next.slots, next.bits) && Good(next.slots, next.bits, hasher) && View(next.slots) == View(t.slots)
      && g' == g.(tables := g.tables + [next])
  }

  ghost predicate WriterNext(g: Shared, g': Shared, hasher: Key -> nat)
    requires g.tables != []
  {
    exists st :: Writes(g, st, g', hasher)
  }

  /** Where the reader of one `get` call stands: before loading the seqlock, holding its
      value, `at` loads into table `table`, or having found nothing. */
  datatype Reader =
    | Start
    | HaveSeq(stamp: nat)
    | Scanning(stamp: nat, table: nat, at: nat, found: Option<Entry>)
    | Missed(stamp: nat)
    | Done(result: Option<Entry>)

  /** The position of the reader's `i`-th load: the home bucket from left to right, then the
      other bucket. */
  function LoadAt(t: TableState, hash: nat, i: nat): nat {
    if i < SLOTS then SLOTS * Home(hash, t.bits) + i
    else SLOTS * Alt(Home(hash, t.bits), TagOf(hash), t.bits) + (i - SLOTS)
  }

  predicate Match(w: Slot, hash: nat, key: Key) {
    w.Word? && w.tag == TagOf(hash) && w.entry.key == key
  }

  /** One load of the reader. A bucket is compared once all of it has been loaded; a miss in
      both counts only if the seqlock is even and has not moved. */
  ghost predicate Reads(g: Shared, r: Reader, r': Reader, hash: nat, key: Key)
    requires g.tables != []
  {
    match r
    case Start => r' == HaveSeq(g.moving)
    case HaveSeq(stamp) => r' == Scanning(stamp, |g.tables| - 1, 0, None)
    case Scanning(stamp, t, i, found) =>
      && t < |g.tables| && LoadAt(g.tables[t], hash, i) < |g.tables[t].slots|
      && var w := g.tables[t].slots[LoadAt(g.tables[t], hash, i)];
      var found' := if found.None? && Match(w, hash, key) then Some(w.entry) else found;
      r' == if (i + 1) % SLOTS == 0 && found'.Some? then Done(found')
            else if i + 1 == 2 * SLOTS then Missed(stamp)
            else Scanning(stamp, t, i + 1, found')
    case Missed(stamp) =>
      r' == if stamp % 2 == 0 && g.moving == stamp then Done(None) else Start
    case Done(_) => false
  }

  datatype System = System(shared: Shared, reader: Reader)

  ghost predicate Next(s: System, s': System, hasher: Key -> nat, key: Key)
    requires s.shared.tables != []
  {
    || (s'.shared == s.shared && Reads(s.shared, s.reader, s'.reader, hasher(key), key))
    || (s'.reader == s.reader && WriterNext(s.shared, s'.shared, hasher))
  }

  // ---- the writer ----

  /** What one store does to the map: additions, replacements and removals take effect in a
      single store; shifting entries and swapping tables changes nothing. */
  ghost function Effect(g: Shared, st: Store): map<Key, Entry>
    requires g.tables != [] && (st.StoreNew? ==> g.writer.Shifting?)
    requires st.Clear? ==> st.at < |Live(g).slots| && Live(g).slots[st.at].Word?
  {
    match st
    case Add(_, e) => Current(g)[e.key := e]
    case Replace(_, e) => Current(g)[e.key := e]
    case Clear(p) => Current(g) - {Live(g).slots[p].entry.key}
    case StoreNew => Current(g)[g.writer.entry.key := g.writer.entry]
    case _ => Current(g)
  }

  lemma WriterKeepsConsistent(g: Shared, st: Store, g': Shared, hasher: Key -> nat)
    requires Consistent(g, hasher) && Writes(g, st, g', hasher)
    ensures Consistent(g', hasher) && Current(g') == Effect(g, st)
  {
    hide Good, Displacing, FitsAt, PathOk, View;
    var t := Live(g);
    match st
    case Add(p, e) => StoreAdds(t.slots, t.bits, hasher, p, e);
    case Replace(p, e) => StoreReplaces(t.slots, t.bits, hasher, p, e);
    case Clear(p) => ClearRemoves(t.slots, t.bits, hasher, p);
    case BeginMove(path, dest, e) =>
      DisplacementStarts(t.slots, t.bits, hasher, path, dest);
      assert t.slots[dest := Empty] == t.slots;
    case Hop => HopKeepsDisplacing(t.slots, t.bits, hasher, g.writer.todo, g.writer.hole, Current(g));
    case StoreNew => DisplacementEnds(t.slots, t.bits, hasher, g.writer.hole, Current(g), g.writer.entry);
    case EndMove =>
    case Swap(next) =>
  }

  /** Every word of the live table, the leftover copy in the hole included, is the current
      entry of its key. */
  lemma LiveWordIsCurrent(g: Shared, hasher: Key -> nat, p: nat)
    requires Consistent(g, hasher)
    requires p < |Live(g).slots| && Live(g).slots[p].Word?
    ensures ValueOf(g, Live(g).slots[p].entry.key) == Some(Live(g).slots[p].entry)
  {
    hide Displacing, FitsAt, View;
    var t := Live(g);
    match g.writer
    case Shifting(todo, hole, e) =>
      DisplacingWord(t.slots, t.bits, hasher, todo, hole, Current(g), p);
    case _ => ViewMeans(t.slots);
  }

  lemma DisplacingWord(t: seq<Slot>, bits: nat, hasher: Key -> nat, todo: seq<nat>, hole: nat, m: map<Key, Entry>, p: nat)
    requires Displacing(t, bits, hasher, todo, hole, m) && p < |t| && t[p].Word?
    ensures hole < |t| && t[p].entry.key in m && m[t[p].entry.key] == t[p].entry
  {
    hide FitsAt, View, PathOk;
    var h := t[hole := Empty];
    ViewMeans(h);
    assert p != hole ==> h[p] == t[p];
  }

  ghost predicate StoresFollow(gs: seq<Shared>, hasher: Key -> nat) {
    forall i | 0 <= i < |gs| - 1 :: gs[i].tables != [] && WriterNext(gs[i], gs[i + 1], hasher)
  }

  lemma StoresJoin(a: seq<Shared>, b: seq<Shared>, hasher: Key -> nat)
    requires a != [] && b != [] && a[|a| - 1] == b[0] && StoresFollow(a, hasher) && StoresFollow(b, hasher)
    ensures StoresFollow(a + b[1..], hasher)
  {
    hide WriterNext;
    var c := a + b[1..];
    forall i | 0 <= i < |c| - 1
      ensures c[i].tables != [] && WriterNext(c[i], c[i + 1], hasher)
    {
      if i < |a| - 1 {
        assert c[i] == a[i] && c[i + 1] == a[i + 1];
      } else {
        assert c[i] == b[i - |a| + 1] && c[i + 1] == b[i - |a| + 1 + 1];
      }
    }
  }

  /** A displacement that has begun can always be carried through, and its stores leave the
      live table exactly as the sequential application of the path does. */
  lemma {:induction false} DisplacementCompletes(g: Shared, hasher: Key -> nat) returns (gs: seq<Shared>)
    requires Consistent(g, hasher) && g.writer.Shifting?
    requires forall j | 0 <= j < |g.writer.todo| :: g.writer.todo[j] < |Live(g).slots|
    ensures |gs| >= 2 && gs[0] == g && StoresFollow(gs, hasher)
    ensures var last := gs[|gs| - 1];
      && last.tables != [] && last.writer.Idle? && last.moving == g.moving + 1
      && Consistent(last, hasher) && Live(last).bits == Live(g).bits
      && g.writer.hole < |Live(g).slots|
      && Live(last).slots == Applied(Live(g).slots, g.writer.todo, g.writer.hole, WordOf(g.writer.entry))
    decreases |g.writer.todo|
  {
    hide Good, FitsAt, View, PathOk;
    var t, hole, todo := Live(g), g.writer.hole, g.writer.todo;
    if todo == [] {
      var stored := WithSlot(g, hole, WordOf(g.writer.entry)).(writer := Closing);
      var closed := stored.(moving := g.moving + 1, writer := Idle);
      assert Writes(g, StoreNew, stored, hasher);
      assert Writes(stored, EndMove, closed, hasher);
      WriterKeepsConsistent(g, StoreNew, stored, hasher);
      WriterKeepsConsistent(stored, EndMove, closed, hasher);
      gs := [g, stored, closed];
    } else {
      var n := |todo| - 1;
      var g' := WithSlot(g, hole, t.slots[todo[n]]).(writer := Shifting(todo[..n], todo[n], g.writer.entry));
      assert Writes(g, Hop, g', hasher);
      WriterKeepsConsistent(g, Hop, g', hasher);
      var rest := DisplacementCompletes(g', hasher);
      gs := [g] + rest;
      assert WriterNext(gs[0], gs[1], hasher);
      forall i | 0 <= i < |gs| - 1
        ensures gs[i].tables != [] && WriterNext(gs[i], gs[i + 1], hasher)
      {
        assert i > 0 ==> gs[i] == rest[i - 1] && gs[i + 1] == rest[i - 1 + 1];
      }
    }
  }

  // ---- the reader ----

  /** A load still to come will hit the key, whichever way the remaining loads interleave. */
  ghost predicate HitAhead(t: TableState, hash: nat, key: Key, from: nat) {
    exists i :: from <= i < 2 * SLOTS && HitsAt(t, hash, key, i)
  }

  ghost predicate HitsAt(t: TableState, hash: nat, key: Key, i: nat) {
    LoadAt(t, hash, i) < |t.slots| && Match(t.slots[LoadAt(t, hash, i)], hash, key)
  }

  /** Every entry a retired table still shows for the key has been its current entry during
      the call. */
  ghost predicate ShowsOnlySeen(t: TableState, key: Key, seen: set<Option<Entry>>) {
    forall p | 0 <= p < |t.slots| && Holds(t.slots[p], key) :: Some(t.slots[p].entry) in seen
  }

  /** No displacement has overlapped the call since `stamp` was loaded, and the key has not
      been absent. */
  predicate Undisturbed(moving: nat, stamp: nat, seen: set<Option<Entry>>) {
    stamp % 2 == 0 && moving == stamp && None !in seen
  }

  /** What holds of a reader at any moment, `seen` being the values the key has had since
      the call began. */
  ghost predicate ReaderOk(s: System, hash: nat, key: Key, seen: set<Option<Entry>>)
    requires s.shared.tables != []
  {
    var g := s.shared;
    && ValueOf(g, key) in seen
    && match s.reader {
         case Start => true
         case HaveSeq(stamp) => stamp <= g.moving
         case Scanning(stamp, t, i, found) =>
           && stamp <= g.moving && t < |g.tables| && i < 2 * SLOTS
           && (t < |g.tables| - 1 ==> ShowsOnlySeen(g.tables[t], key, seen))
           && (found.Some? ==> found in seen)
           && (Undisturbed(g.moving, stamp, seen) ==> found.Some? || HitAhead(g.tables[t], hash, key, i))
         case Missed(stamp) => stamp <= g.moving && !Undisturbed(g.moving, stamp, seen)
         case Done(result) => result in seen
       }
  }

  /** A key in a good table is hit by one of the sixteen loads. */
  lemma PresentIsHit(t: TableState, hasher: Key -> nat, key: Key)
    requires Good(t.slots, t.bits, hasher) && key in View(t.slots)
    ensures HitAhead(t, hasher(key), key, 0)
  {
    var p := PositionOf(t.slots, key);
    assert FitsAt(t.slots[p], p, t.bits, hasher);
    var i := if Bucket(p) == Home(hasher(key), t.bits) then p % SLOTS else SLOTS + p % SLOTS;
    assert LoadAt(t, hasher(key), i) == p;
    assert HitsAt(t, hasher(key), key, i);
  }

  lemma ReaderStep(s: System, r': Reader, hasher: Key -> nat, key: Key, seen: set<Option<Entry>>)
    requires Consistent(s.shared, hasher) && ReaderOk(s, hasher(key), key, seen)
    requires Reads(s.shared, s.reader, r', hasher(key), key)
    ensures ReaderOk(System(s.shared, r'), hasher(key), key, seen)
  {
    hide Displacing, FitsAt, View, Good;
    var g, hash := s.shared, hasher(key);
    match s.reader
    case Start =>
    case HaveSeq(stamp) =>
      if Undisturbed(g.moving, stamp, seen) {
        PresentIsHit(Live(g), hasher, key);
      }
    case Scanning(stamp, t, i, found) => LoadStep(s, r', hasher, key, seen);
    case Missed(stamp) =>
    case Done(_) =>
  }

  /** One load of a slot. */
  lemma LoadStep(s: System, r': Reader, hasher: Key -> nat, key: Key, seen: set<Option<Entry>>)
    requires Consistent(s.shared, hasher) && ReaderOk(s, hasher(key), key, seen) && s.reader.Scanning?
    requires Reads(s.shared, s.reader, r', hasher(key), key)
    ensures ReaderOk(System(s.shared, r'), hasher(key), key, seen)
  {
    hide Consistent, LoadAt, ValueOf;
    var g, hash := s.shared, hasher(key);
    var stamp, t, i, found := s.reader.stamp, s.reader.table, s.reader.at, s.reader.found;
    var p := LoadAt(g.tables[t], hash, i);
    var w := g.tables[t].slots[p];
    if t == |g.tables| - 1 && w.Word? {
      LiveWordIsCurrent(g, hasher, p);
    }
    if Undisturbed(g.moving, stamp, seen) && found.None? && !Match(w, hash, key) {
      var j :| i <= j < 2 * SLOTS && HitsAt(g.tables[t], hash, key, j);
      assert j != i;
    }
  }

  lemma WriterStep(s: System, st: Store, g': Shared, hasher: Key -> nat, key: Key, seen: set<Option<Entry>>)
    requires Consistent(s.shared, hasher) && ReaderOk(s, hasher(key), key, seen)
    requires Writes(s.shared, st, g', hasher)
    ensures g'.tables != [] && Consistent(g', hasher)
    ensures ReaderOk(System(g', s.reader), hasher(key), key, seen + {ValueOf(g', key)})
  {
    hide Displacing, FitsAt, View, Good, PathOk, Match;
    WriterKeepsConsistent(s.shared, st, g', hasher);
    var g := s.shared;
    if s.reader.Scanning? {
      var t := s.reader.table;
      RetiredShowsSeen(s, st, g', hasher, key, seen);
      if Undisturbed(g'.moving, s.reader.stamp, seen + {ValueOf(g', key)}) && s.reader.found.None? {
        HitStaysAhead(g, st, g', hasher, key, t, s.reader.at);
      }
    }
  }

  /** A table the reader holds, if it is or becomes retired, shows only values seen. */
  lemma RetiredShowsSeen(s: System, st: Store, g': Shared, hasher: Key -> nat, key: Key, seen: set<Option<Entry>>)
    requires Consistent(s.shared, hasher) && ReaderOk(s, hasher(key), key, seen) && s.reader.Scanning?
    requires Writes(s.shared, st, g', hasher)
    ensures s.reader.table < |g'.tables|
    ensures s.reader.table < |g'.tables| - 1 ==> ShowsOnlySeen(g'.tables[s.reader.table], key, seen)
  {
    hide Displacing, FitsAt, View, Good, PathOk, Match;
    var g, t := s.shared, s.reader.table;
    if t < |g'.tables| - 1 {
      assert g'.tables[t] == g.tables[t];
      if t == |g.tables| - 1 {
        forall p | 0 <= p < |Live(g).slots| && Holds(Live(g).slots[p], key)
          ensures Some(Live(g).slots[p].entry) in seen
        {
          LiveWordIsCurrent(g, hasher, p);
        }
      }
    }
  }

  /** As long as no displacement runs and the key stays present, no store takes away the
      hit that is still ahead of the reader. */
  lemma HitStaysAhead(g: Shared, st: Store, g': Shared, hasher: Key -> nat, key: Key, t: nat, from: nat)
    requires Consistent(g, hasher) && Writes(g, st, g', hasher) && Consistent(g', hasher)
    requires g.writer.Idle? && g'.writer.Idle? && t < |g.tables| && t < |g'.tables|
    requires HitAhead(g.tables[t], hasher(key), key, from)
    requires Current(g') == Effect(g, st) && key in Current(g')
    ensures HitAhead(g'.tables[t], hasher(key), key, from)
  {
    hide Displacing, FitsAt, View, Good, PathOk, Sound;
    var hash := hasher(key);
    var i :| from <= i < 2 * SLOTS && HitsAt(g.tables[t], hash, key, i);
    var p := LoadAt(g.tables[t], hash, i);
    assert g'.tables[t].bits == g.tables[t].bits;
    assert LoadAt(g'.tables[t], hash, i) == p;
    assert HitsAt(g'.tables[t], hash, key, i);
  }

  /** The reader never blocks: until it is done, its next load exists. */
  lemma ReaderCanStep(s: System, hasher: Key -> nat, key: Key, seen: set<Option<Entry>>)
    requires Consistent(s.shared, hasher) && ReaderOk(s, hasher(key), key, seen) && !s.reader.Done?
    ensures exists r' :: Reads(s.shared, s.reader, r', hasher(key), key)
  {
    var g, hash := s.shared, hasher(key);
    match s.reader
    case Start => assert Reads(g, s.reader, HaveSeq(g.moving), hash, key);
    case HaveSeq(stamp) => assert Reads(g, s.reader, Scanning(stamp, |g.tables| - 1, 0, None), hash, key);
    case Scanning(stamp, t, i, found) =>
      LoadInRange(g.tables[t], hash, i);
      var w := g.tables[t].slots[LoadAt(g.tables[t], hash, i)];
      var found' := if found.None? && Match(w, hash, key) then Some(w.entry) else found;
      var r' := if (i + 1) % SLOTS == 0 && found'.Some? then Done(found')
      else if i + 1 == 2 * SLOTS then Missed(stamp)
      else Scanning(stamp, t, i + 1, found');
      assert Reads(g, s.reader, r', hash, key);
    case Missed(stamp) =>
      assert Reads(g, s.reader, if stamp % 2 == 0 && g.moving == stamp then Done(None) else Start, hash, key);
  }

  lemma LoadInRange(t: TableState, hash: nat, i: nat)
    requires InRange(t.slots, t.bits) && i < 2 * SLOTS
    ensures LoadAt(t, hash, i) < |t.slots|
  {
  }

  // ---- whole runs ----

  /** A run of one `get` call among any number of stores, starting where the call starts. */
  ghost predicate IsRun(run: seq<System>, hasher: Key -> nat, key: Key) {
    && run != []
    && Consistent(run[0].shared, hasher) && run[0].reader.Start?
    && forall i | 0 <= i < |run| - 1 :: run[i].shared.tables != [] && Next(run[i], run[i + 1], hasher, key)
  }

  /** The values the key has had over a run. */
  ghost function Seen(run: seq<System>, key: Key): set<Option<Entry>>
    requires forall i | 0 <= i < |run| :: run[i].shared.tables != []
  {
    set i | 0 <= i < |run| :: ValueOf(run[i].shared, key)
  }

  lemma {:induction false} RunInvariant(run: seq<System>, hasher: Key -> nat, key: Key)
    requires IsRun(run, hasher, key)
    ensures forall i | 0 <= i < |run| :: run[i].shared.tables != []
    ensures Consistent(run[|run| - 1].shared, hasher)
    ensures ReaderOk(run[|run| - 1], hasher(key), key, Seen(run, key))
  {
    hide Consistent, Next, Reads, ReaderOk, ValueOf;
    var n := |run| - 1;
    if n == 0 {
      RunStarts(run, hasher, key);
    } else {
      var before := run[..n];
      assert IsRun(before, hasher, key);
      RunInvariant(before, hasher, key);
      assert before[n - 1] == run[n - 1];
      assert forall i | 0 <= i < n :: run[i] == before[i];
      RunExtends(run[n - 1], run[n], hasher, key, Seen(before, key));
      SeenExtends(run, key);
    }
  }

  lemma RunStarts(run: seq<System>, hasher: Key -> nat, key: Key)
    requires IsRun(run, hasher, key) && |run| == 1
    ensures run[0].shared.tables != [] && ReaderOk(run[0], hasher(key), key, Seen(run, key))
  {
    assert ValueOf(run[0].shared, key) in Seen(run, key);
  }

  lemma SeenExtends(run: seq<System>, key: Key)
    requires |run| > 1 && forall i | 0 <= i < |run| :: run[i].shared.tables != []
    ensures Seen(run, key) == Seen(run[..|run| - 1], key) + {ValueOf(run[|run| - 1].shared, key)}
  {
    hide ValueOf;
    var before := run[..|run| - 1];
    forall v | v in Seen(before, key)
      ensures v in Seen(run, key)
    {
      var i :| 0 <= i < |before| && ValueOf(before[i].shared, key) == v;
      assert run[i] == before[i];
    }
    forall v | v in Seen(run, key)
      ensures v in Seen(before, key) + {ValueOf(run[|run| - 1].shared, key)}
    {
      var i :| 0 <= i < |run| && ValueOf(run[i].shared, key) == v;
      assert i < |before| ==> run[i] == before[i];
    }
  }

  lemma RunExtends(s: System, s': System, hasher: Key -> nat, key: Key, seen: set<Option<Entry>>)
    requires s.shared.tables != [] && Consistent(s.shared, hasher) && ReaderOk(s, hasher(key), key, seen)
    requires Next(s, s', hasher, key)
    ensures s'.shared.tables != [] && Consistent(s'.shared, hasher)
    ensures ReaderOk(s', hasher(key), key, seen + {ValueOf(s'.shared, key)})
  {
    hide Consistent, Reads, Writes, ReaderOk;
    if s'.shared == s.shared && Reads(s.shared, s.reader, s'.reader, hasher(key), key) {
      ReaderStep(s, s'.reader, hasher, key, seen);
      ValueIsSeen(s', hasher(key), key, seen);
      assert seen + {ValueOf(s'.shared, key)} == seen;
      assert s' == System(s.shared, s'.reader);
    } else {
      var st :| Writes(s.shared, st, s'.shared, hasher);
      WriterStep(s, st, s'.shared, hasher, key, seen);
      assert s' == System(s'.shared, s.reader);
    }
  }

  lemma ValueIsSeen(s: System, hash: nat, key: Key, seen: set<Option<Entry>>)
    requires s.shared.tables != [] && ReaderOk(s, hash, key, seen)
    ensures ValueOf(s.shared, key) in seen
  {
  }

  /** In every interleaving, what `get` returns was the key's value at some moment of the call:
      an entry it returns was current then, and a miss means the key was absent then. */
  lemma GetReturnsACurrentValue(run: seq<System>, hasher: Key -> nat, key: Key)
    requires IsRun(run, hasher, key) && run[|run| - 1].reader.Done?
    ensures exists i :: 0 <= i < |run| && run[i].shared.tables != []
              && ValueOf(run[i].shared, key) == run[|run| - 1].reader.result
  {
    hide Consistent, Next, ValueOf;
    RunInvariant(run, hasher, key);
    assert run[|run| - 1].reader.result in Seen(run, key);
  }

  /** A key that is present throughout the call is never reported absent. */
  lemma PresentKeyIsNeverMissed(run: seq<System>, hasher: Key -> nat, key: Key)
    requires IsRun(run, hasher, key) && run[|run| - 1].reader.Done?
    requires forall i | 0 <= i < |run| :: run[i].shared.tables != [] && ValueOf(run[i].shared, key).Some?
    ensures run[|run| - 1].reader.result.Some?
  {
    hide Consistent, Next, ValueOf;
    GetReturnsACurrentValue(run, hasher, key);
  }

  // ---- a reader left alone ----

  /** How many loads a reader has left if the writer stays idle: a pass is 19 loads, and one
      that the seqlock has already spoilt is followed by another. */
  function LoadsLeft(r: Reader, moving: nat): nat {
    match r
    case Start => 19
    case HaveSeq(stamp) => 18 + Again(stamp, moving)
    case Scanning(stamp, _, i, _) => if i < 16 then 17 - i + Again(stamp, moving) else 0
    case Missed(stamp) => 1 + Again(stamp, moving)
    case Done(_) => 0
  }

  function Again(stamp: nat, moving: nat): nat {
    if stamp == moving then 0 else 19
  }

  lemma LoadsRunDown(g: Shared, hasher: Key -> nat, r: Reader, r': Reader, key: Key, seen: set<Option<Entry>>)
    requires Consistent(g, hasher) && g.writer.Idle? && ReaderOk(System(g, r), hasher(key), key, seen)
    requires Reads(g, r, r', hasher(key), key)
    ensures LoadsLeft(r', g.moving) < LoadsLeft(r, g.moving)
  {
    hide Good, Match;
  }

  /** From moment `n` on the writer is idle and only the reader moves. */
  ghost predicate QuietFrom(run: seq<System>, n: nat, hasher: Key -> nat, key: Key) {
    && n < |run| && run[n].shared.tables != [] && run[n].shared.writer.Idle?
    && forall i | n <= i < |run| - 1 ::
         run[i + 1].shared == run[i].shared && run[i].shared.tables != []
         && Reads(run[i].shared, run[i].reader, run[i + 1].reader, hasher(key), key)
  }

  lemma {:induction false} QuietLoads(run: seq<System>, n: nat, hasher: Key -> nat, key: Key, i: nat)
    requires IsRun(run, hasher, key) && QuietFrom(run, n, hasher, key) && n <= i < |run|
    ensures run[i].shared == run[n].shared
    ensures LoadsLeft(run[i].reader, run[n].shared.moving) + (i - n) <= LoadsLeft(run[n].reader, run[n].shared.moving)
  {
    hide Reads, Consistent, ReaderOk, LoadsLeft, Next;
    if i > n {
      QuietLoads(run, n, hasher, key, i - 1);
      assert IsRun(run[..i], hasher, key);
      RunInvariant(run[..i], hasher, key);
      assert run[..i][i - 1] == run[i - 1];
      var s := run[i - 1];
      assert System(s.shared, s.reader) == s;
      LoadsRunDown(s.shared, hasher, s.reader, run[i].reader, key, Seen(run[..i], key));
    }
  }

  /** Once the writer stays idle, a reader is done within 37 loads, wherever it stood: two
      passes at most. Until then its next load exists. */
  lemma QuietReaderEnds(run: seq<System>, n: nat, hasher: Key -> nat, key: Key)
    requires IsRun(run, hasher, key) && QuietFrom(run, n, hasher, key)
    ensures |run| - 1 - n <= 37
    ensures var last := run[|run| - 1];
            last.shared.tables != [] && (!last.reader.Done? ==> exists r' :: Reads(last.shared, last.reader, r', hasher(key), key))
  {
    hide Reads, Consistent, Next, ReaderOk;
    QuietLoads(run, n, hasher, key, |run| - 1);
    RunInvariant(run, hasher, key);
    if !run[|run| - 1].reader.Done? {
      ReaderCanStep(run[|run| - 1], hasher, key, Seen(run, key));
    }
  }

  /** A call during which the writer is idle takes at most 19 loads and returns the value the
      key has. */
  lemma QuietReadIsCurrent(run: seq<System>, hasher: Key -> nat, key: Key)
    requires IsRun(run, hasher, key) && QuietFrom(run, 0, hasher, key)
    ensures |run| <= 20
    ensures var r := run[|run| - 1].reader; r.Done? ==> r.result == ValueOf(run[0].shared, key)
  {
    hide Reads, Consistent, Next, ReaderOk, ValueOf;
    QuietLoads(run, 0, hasher, key, |run| - 1);
    if run[|run| - 1].reader.Done? {
      GetReturnsACurrentValue(run, hasher, key);
      var i :| 0 <= i < |run| && run[i].shared.tables != [] && ValueOf(run[i].shared, key) == run[|run| - 1].reader.result;
      QuietLoads(run, 0, hasher, key, i);
    }
  }

  /** One empty table, nothing moving. */
  predicate FreshIndex(g: Shared) {
    && |g.tables| == 1 && g.moving == 0 && g.writer.Idle? && InRange(g.tables[0].slots, g.tables[0].bits)
    && forall p | 0 <= p < |g.tables[0].slots| :: g.tables[0].slots[p].Empty?
  }

  /** The index as it is created satisfies the invariant every run starts from. */
  lemma FreshIndexIsConsistent(g: Shared, hasher: Key -> nat)
    requires FreshIndex(g)
    ensures Consistent(g, hasher) && Current(g) == map[]
  {
    MeansOnlyView(g.tables[0].slots, map[]);
  }

  // ---- the stores of the sequential index ----

  /** A history of shared states, from the new index on, each one store after the one before,
      that has come to a live table of these slots with the writer idle. */
  ghost predicate Shows(trace: seq<Shared>, hasher: Key -> nat, slots: seq<Slot>, bits: nat, moving: nat) {
    && trace != [] && FreshIndex(trace[0]) && StoresFollow(trace, hasher)
    && var g := trace[|trace| - 1];
    g.tables != [] && Consistent(g, hasher) && g.writer.Idle? && Live(g) == TableState(slots, bits) && g.moving == moving
  }

  lemma StoreShows(trace: seq<Shared>, hasher: Key -> nat, slots: seq<Slot>, bits: nat, moving: nat, st: Store, g': Shared)
    requires Shows(trace, hasher, slots, bits, moving) && Writes(trace[|trace| - 1], st, g', hasher)
    ensures Consistent(g', hasher) && StoresFollow(trace + [g'], hasher)
  {
    hide Writes, Consistent;
    var g := trace[|trace| - 1];
    WriterKeepsConsistent(g, st, g', hasher);
    assert StoresFollow([g, g'], hasher) by {
      assert [g, g'][0] == g && [g, g'][1] == g' && WriterNext(g, g', hasher);
      assert g.tables != [];
    }
    StoresJoin(trace, [g, g'], hasher);
    assert [g, g'][1..] == [g'];
  }

  /** Adding a key in one store. */
  lemma AddShows(trace: seq<Shared>, hasher: Key -> nat, slots: seq<Slot>, bits: nat, moving: nat, p: nat, e: Entry)
    returns (trace': seq<Shared>)
    requires Shows(trace, hasher, slots, bits, moving) && p < |slots| && slots[p].Empty?
    requires e.key !in View(slots) && FitsAt(WordOf(e), p, bits, hasher)
    ensures trace <= trace' && Shows(trace', hasher, slots[p := WordOf(e)], bits, moving)
  {
    hide Consistent, FitsAt, View, StoresFollow;
    var g' := WithSlot(trace[|trace| - 1], p, WordOf(e));
    StoreShows(trace, hasher, slots, bits, moving, Add(p, e), g');
    trace' := trace + [g'];
  }

  /** Replacing a key's entry in one store. */
  lemma ReplaceShows(trace: seq<Shared>, hasher: Key -> nat, slots: seq<Slot>, bits: nat, moving: nat, p: nat, e: Entry)
    returns (trace': seq<Shared>)
    requires Shows(trace, hasher, slots, bits, moving) && p < |slots| && Holds(slots[p], e.key) && e.hash == hasher(e.key)
    ensures trace <= trace' && Shows(trace', hasher, slots[p := WordOf(e)], bits, moving)
  {
    hide Consistent, View, StoresFollow;
    var g' := WithSlot(trace[|trace| - 1], p, WordOf(e));
    StoreShows(trace, hasher, slots, bits, moving, Replace(p, e), g');
    trace' := trace + [g'];
  }

  /** Removing a key in one store. */
  lemma ClearShows(trace: seq<Shared>, hasher: Key -> nat, slots: seq<Slot>, bits: nat, moving: nat, p: nat)
    returns (trace': seq<Shared>)
    requires Shows(trace, hasher, slots, bits, moving) && p < |slots| && slots[p].Word?
    ensures trace <= trace' && Shows(trace', hasher, slots[p := Empty], bits, moving)
  {
    hide Consistent, View, StoresFollow;
    var g' := WithSlot(trace[|trace| - 1], p, Empty);
    StoreShows(trace, hasher, slots, bits, moving, Clear(p), g');
    trace' := trace + [g'];
  }

  /** Publishing a rebuilt table in one store. */
  lemma SwapShows(trace: seq<Shared>, hasher: Key -> nat, slots: seq<Slot>, bits: nat, moving: nat, next: TableState)
    returns (trace': seq<Shared>)
    requires Shows(trace, hasher, slots, bits, moving)
    requires InRange(next.slots, next.bits) && Good(next.slots, next.bits, hasher) && View(next.slots) == View(slots)
    ensures trace <= trace' && Shows(trace', hasher, next.slots, next.bits, moving)
  {
    hide Consistent, View, StoresFollow, Good, InRange;
    var g := trace[|trace| - 1];
    var g' := g.(tables := g.tables + [next]);
    StoreShows(trace, hasher, slots, bits, moving, Swap(next), g');
    trace' := trace + [g'];
  }

  /** Displacing along a path: the seqlock, every hop, the new word, the seqlock again. */
  lemma MoveShows(trace: seq<Shared>, hasher: Key -> nat, slots: seq<Slot>, bits: nat, moving: nat,
                  path: seq<nat>, dest: nat, e: Entry)
    returns (trace': seq<Shared>)
    requires Shows(trace, hasher, slots, bits, moving)
    requires dest < |slots| && slots[dest].Empty? && PathOk(slots, bits, path, dest)
    requires forall j | 0 <= j < |path| :: path[j] < |slots|
    requires e.key !in View(slots) && FitsAt(WordOf(e), Target(path, dest), bits, hasher)
    ensures trace <= trace' && Shows(trace', hasher, Applied(slots, path, dest, WordOf(e)), bits, moving + 2)
  {
    hide Consistent, View, StoresFollow, PathOk, FitsAt, Applied;
    var g := trace[|trace| - 1];
    var g' := g.(moving := g.moving + 1, writer := Shifting(path, dest, e));
    StoreShows(trace, hasher, slots, bits, moving, BeginMove(path, dest, e), g');
    var gs := DisplacementCompletes(g', hasher);
    StoresJoin(trace + [g'], gs, hasher);
    trace' := trace + [g'] + gs[1..];
    assert trace'[|trace'| - 1] == gs[|gs| - 1];
  }
}
