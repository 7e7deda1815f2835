/** The index of a shard: a cuckoo table changed in place by a single writer. Every
    operation is stated against the finite map the table means. */
module CuckooIndex {
  import opened Base
  import opened Bits
  import opened Cuckoo
  import opened CuckooReaders
  import opened CuckooWalks

  const MAX_LOAD_EIGHTHS := 7

  /** A hash has a free slot unless both its buckets are full. */
  lemma FreeForMeans(s: seq<Slot>, bits: nat, hash: nat)
    requires InRange(s, bits)
    ensures FreeFor(s, bits, hash)
       <==> !(BucketFull(s, Home(hash, bits)) && BucketFull(s, Alt(Home(hash, bits), TagOf(hash), bits)))
  {
    var b1 := Home(hash, bits);
    var b2 := Alt(b1, TagOf(hash), bits);
    FullHasNoRoom(s, b1);
    FullHasNoRoom(s, b2);
    forall p | 0 <= p < |s| && s[p].Empty? && Candidate(p, hash, bits) ensures HasRoom(s, b1) || HasRoom(s, b2) {
      assert SLOTS * Bucket(p) <= p < SLOTS * Bucket(p) + SLOTS;
    }
    forall b | (b == b1 || b == b2) && HasRoom(s, b) ensures FreeFor(s, bits, hash) {
      var p :| SLOTS * b <= p < SLOTS * b + SLOTS && p < |s| && s[p].Empty?;
      assert Candidate(p, hash, bits);
    }
  }

  class Table {
    const bits: nat
    const slots: array<Slot>

    constructor (bits: nat)
      requires bits >= MIN_BITS
      ensures this.bits == bits && fresh(slots)
      ensures InRange(slots[..], bits)
      ensures forall p | 0 <= p < slots.Length :: slots[p].Empty?
    {
      this.bits := bits;
      slots := new Slot[SLOTS * Pow2(bits)](_ => Empty);
    }

    /** The slot of bucket `b` holding `key` under `tag`, scanned from the left. */
    method FindIn(b: nat, tag: nat, key: Key) returns (r: Option<nat>)
      requires InRange(slots[..], bits) && b < Pow2(bits)
      ensures r.Some? ==> r.value < slots.Length && Bucket(r.value) == b && Holds(slots[r.value], key)
      ensures r.None? ==> forall p | SLOTS * b <= p < SLOTS * b + SLOTS :: !(Holds(slots[p], key) && slots[p].tag == tag)
    {
      for i := 0 to SLOTS
        invariant forall p | SLOTS * b <= p < SLOTS * b + i :: !(Holds(slots[p], key) && slots[p].tag == tag)
      {
        var w := slots[SLOTS * b + i];
        if w.Word? && w.tag == tag && w.entry.key == key {
          return Some(SLOTS * b + i);
        }
      }
      return None;
    }

    method EmptySlot(b: nat) returns (r: Option<nat>)
      requires InRange(slots[..], bits) && b < Pow2(bits)
      ensures r.Some? ==> r.value < slots.Length && Bucket(r.value) == b && slots[r.value].Empty?
      ensures r.Some? ==> forall p | SLOTS * b <= p < r.value :: slots[p].Word?
      ensures r.None? ==> BucketFull(slots[..], b)
    {
      for i := 0 to SLOTS
        invariant forall p | SLOTS * b <= p < SLOTS * b + i :: slots[p].Word?
      {
        if slots[SLOTS * b + i].Empty? {
          return Some(SLOTS * b + i);
        }
      }
      return None;
    }

    /** Lookup through both candidate buckets agrees with the map: it finds the key exactly
        when the map has it, at the slot of its current entry. */
    method Find(hash: nat, key: Key, ghost hasher: Key -> nat) returns (r: Option<nat>)
      requires Good(slots[..], bits, hasher) && hash == hasher(key)
      ensures r.Some? <==> key in View(slots[..])
      ensures r.Some? ==> r.value < slots.Length && slots[r.value] == WordOf(View(slots[..])[key]) && Holds(slots[r.value], key)
    {
      var tag, home := TagOf(hash), Home(hash, bits);
      r := FindIn(home, tag, key);
      if r.None? {
        r := FindIn(Alt(home, tag, bits), tag, key);
      }
      ViewMeans(slots[..]);
      if r.Some? {
        assert FitsAt(slots[..][r.value], r.value, bits, hasher);
      } else {
        if key in View(slots[..]) { PresentIsFound(slots[..], bits, hasher, key); }
      }
    }
  }

  /** A key in the map sits in one of its two buckets under its own tag. */
  lemma PresentIsFound(s: seq<Slot>, bits: nat, hasher: Key -> nat, key: Key)
    requires Good(s, bits, hasher) && key in View(s)
    ensures !(MissedIn(s, Home(hasher(key), bits), TagOf(hasher(key)), key)
              && MissedIn(s, Alt(Home(hasher(key), bits), TagOf(hasher(key)), bits), TagOf(hasher(key)), key))
  {
    var p := PositionOf(s, key);
    assert FitsAt(s[p], p, bits, hasher);
    assert SLOTS * Bucket(p) <= p < SLOTS * Bucket(p) + SLOTS;
  }

  ghost predicate MissedIn(s: seq<Slot>, b: nat, tag: nat, key: Key) {
    SLOTS * b + SLOTS <= |s| && forall p | SLOTS * b <= p < SLOTS * b + SLOTS :: !(Holds(s[p], key) && s[p].tag == tag)
  }

  /** How a word was placed: in an empty slot, or along a path of displacements. */
  datatype Placing = Direct(at: nat) | Moved(path: seq<nat>, dest: nat)

  /** What placing `e` makes of the slots. */
  ghost predicate Placed(s: seq<Slot>, s': seq<Slot>, bits: nat, hasher: Key -> nat, e: Entry, how: Placing) {
    match how
    case Direct(p) => p < |s| && s[p].Empty? && FitsAt(WordOf(e), p, bits, hasher) && s' == s[p := WordOf(e)]
    case Moved(path, dest) =>
      && dest < |s| && s[dest].Empty? && PathOk(s, bits, path, dest) && (forall j | 0 <= j < |path| :: path[j] < |s|)
      && FitsAt(WordOf(e), Target(path, dest), bits, hasher) && s' == Applied(s, path, dest, WordOf(e))
  }

  /** A placement in the live table is a run of single stores. */
  lemma PlacedShows(trace: seq<Shared>, hasher: Key -> nat, s: seq<Slot>, s': seq<Slot>, bits: nat, moving: nat,
                    e: Entry, how: Placing)
    returns (trace': seq<Shared>)
    requires Shows(trace, hasher, s, bits, moving) && Placed(s, s', bits, hasher, e, how) && e.key !in View(s)
    ensures trace <= trace' && Shows(trace', hasher, s', bits, if how.Moved? then moving + 2 else moving)
  {
    hide Shows, PathOk, FitsAt, Applied, View;
    match how
    case Direct(p) => trace' := AddShows(trace, hasher, s, bits, moving, p, e);
    case Moved(path, dest) => trace' := MoveShows(trace, hasher, s, bits, moving, path, dest, e);
  }

  lemma GoodInRange(s: seq<Slot>, bits: nat, hasher: Key -> nat)
    requires Good(s, bits, hasher)
    ensures InRange(s, bits)
  {
  }

  /** A path from one of the entry's buckets makes a place it may take. */
  lemma PathSuits(s: seq<Slot>, bits: nat, hasher: Key -> nat, path: seq<nat>, dest: nat, e: Entry)
    requires PathOk(s, bits, path, dest) && path != [] && e.hash == hasher(e.key) && Candidate(path[0], e.hash, bits)
    ensures dest < |s| && s[dest].Empty? && FitsAt(WordOf(e), Target(path, dest), bits, hasher)
    ensures forall j | 0 <= j < |path| :: path[j] < |s|
  {
    hide Alt, Home;
  }

  datatype Inserted = Added | Replaced(previous: Entry) | GaveUp

  class Index {
    const hasher: Key -> nat
    var table: Table
    var moving: nat
    var len: nat
    var kickSeed: nat
    /** What readers could see after each single store so far. */
    ghost var trace: seq<Shared>

    ghost predicate Valid()
      reads this, table, table.slots
    {
      && table.bits >= MIN_BITS
      && Good(table.slots[..], table.bits, hasher)
      && len == |Contents()|
      && moving % 2 == 0
      && Shows(trace, hasher, table.slots[..], table.bits, moving)
    }

    /** The finite map this index refines. */
    ghost function Contents(): map<Key, Entry>
      reads this, table, table.slots
    {
      View(table.slots[..])
    }

    constructor (hasher: Key -> nat)
      ensures Valid() && Contents() == map[] && fresh(table) && fresh(table.slots)
      ensures this.hasher == hasher && |trace| == 1
    {
      this.hasher := hasher;
      table := new Table(MIN_BITS);
      moving, len, kickSeed := 0, 0, 1;
      new;
      MeansOnlyView(table.slots[..], map[]);
      trace := [Shared([TableState(table.slots[..], table.bits)], 0, Idle)];
      FreshIndexIsConsistent(trace[0], hasher);
    }

    /** Random walks from one of two full buckets to a bucket with room. Whatever slots the
        generator picks, the result visits no slot twice and every hop is legal; there is one
        exactly when one of the walks leads to room. */
    method FindPath(t: Table, b1: nat, b2: nat) returns (r: Option<(seq<nat>, nat)>)
      requires InRange(t.slots[..], t.bits) && b1 < Pow2(t.bits) && b2 < Pow2(t.bits)
      requires BucketFull(t.slots[..], b1) && BucketFull(t.slots[..], b2)
      modifies this`kickSeed
      ensures r.Some? <==> SomeWalkLeads(t.slots[..], t.bits, b1, b2, old(kickSeed), MAX_WALKS)
      ensures kickSeed == SeedLeft(t.slots[..], t.bits, b1, b2, old(kickSeed), MAX_WALKS)
      ensures r.Some? ==> PathOk(t.slots[..], t.bits, r.value.0, r.value.1)
      ensures r.Some? ==> r.value.0 != [] && (Bucket(r.value.0[0]) == b1 || Bucket(r.value.0[0]) == b2)
    {
      hide Leads, Draws, LastHop;
      var seed: nat := kickSeed;
      r := None;
      var walk := 0;
      while walk < MAX_WALKS && r.None?
        invariant walk <= MAX_WALKS
        invariant SomeWalkLeads(t.slots[..], t.bits, b1, b2, old(kickSeed), MAX_WALKS)
             <==> r.Some? || SomeWalkLeads(t.slots[..], t.bits, b1, b2, seed, MAX_WALKS - walk)
        invariant SeedLeft(t.slots[..], t.bits, b1, b2, old(kickSeed), MAX_WALKS)
               == if r.Some? then seed else SeedLeft(t.slots[..], t.bits, b1, b2, seed, MAX_WALKS - walk)
        invariant r.Some? ==> PathOk(t.slots[..], t.bits, r.value.0, r.value.1)
        invariant r.Some? ==> r.value.0 != [] && (Bucket(r.value.0[0]) == b1 || Bucket(r.value.0[0]) == b2)
        decreases MAX_WALKS - walk
      {
        seed, r := WalkOnce(t, b1, b2, seed);
        walk := walk + 1;
      }
      kickSeed := seed;
    }

    /** One walk of at most `MAX_KICKS` hops, abandoned as soon as it meets a slot again. */
    method WalkOnce(t: Table, b1: nat, b2: nat, seed0: nat) returns (seed: nat, r: Option<(seq<nat>, nat)>)
      requires InRange(t.slots[..], t.bits) && b1 < Pow2(t.bits) && b2 < Pow2(t.bits)
      requires BucketFull(t.slots[..], b1) && BucketFull(t.slots[..], b2)
      ensures seed == SeedAfter(seed0, Draws(t.slots[..], t.bits, StartOf(b1, b2, seed0), seed0))
      ensures r.Some? <==> Leads(t.slots[..], t.bits, StartOf(b1, b2, seed0), seed0)
      ensures r.Some? ==> PathOk(t.slots[..], t.bits, r.value.0, r.value.1)
      ensures r.Some? ==> r.value.0 != [] && (Bucket(r.value.0[0]) == b1 || Bucket(r.value.0[0]) == b2)
      ensures r.Some? ==> forall j | 0 <= j < |r.value.0| ::
                            r.value.0[j] == SlotAt(t.slots[..], t.bits, StartOf(b1, b2, seed0), seed0, j)
    {
      hide HasRoom, NextSeed, Alt, SlotAt, Leads, Draws, Walking, SeedAfter, Walk;
      seed := seed0;
      ghost var s, bits, start := t.slots[..], t.bits, StartOf(b1, b2, seed0);
      var path: seq<nat> := [];
      var b: nat := if seed % 2 == 0 then b1 else b2;
      WalkingStarts(s, bits, start, seed0);
      for kick := 0 to MAX_KICKS
        invariant |path| == kick && b < Pow2(bits) && Walking(s, bits, start, seed0, path, b, seed)
      {
        WalkingHop(s, bits, start, seed0, path, b, seed);
        seed := NextSeed(seed);
        var p := SLOTS * b + (seed / 0x2_0000_0000) % SLOTS;
        if p in path {
          return seed, None;
        }
        var w := t.slots[p];
        assert w == s[p];
        path := path + [p];
        var next := Alt(b, w.tag, t.bits);
        FullHasNoRoom(s, next);
        var gap := t.EmptySlot(next);
        if gap.Some? {
          return seed, Some((path, gap.value));
        }
        b := next;
      }
      WalkingEnds(s, bits, start, seed0, path, b, seed);
      r := None;
    }

    /** Place the word of a new key: into a free slot of either bucket, or by displacement.
        It succeeds exactly when the hash has a free slot or one of the walks leads to room,
        and displaces only when there is no free slot. On success exactly that key is added;
        on failure no slot has changed. The seqlock
        moves by two around a displacement in the live table and not at all otherwise. */
    method Place(t: Table, e: Entry, live: bool) returns (ok: bool, ghost how: Placing)
      requires Good(t.slots[..], t.bits, hasher)
      requires e.hash == hasher(e.key) && e.key !in View(t.slots[..])
      modifies t.slots, this`moving, this`kickSeed
      ensures Good(t.slots[..], t.bits, hasher)
      ensures ok ==> View(t.slots[..]) == old(View(t.slots[..]))[e.key := e]
      ensures !ok ==> t.slots[..] == old(t.slots[..])
      ensures ok <==> CanPlace(old(t.slots[..]), t.bits, e.hash, old(kickSeed))
      ensures ok ==> (how.Direct? <==> FreeFor(old(t.slots[..]), t.bits, e.hash))
      ensures ok ==> Placed(old(t.slots[..]), t.slots[..], t.bits, hasher, e, how)
      ensures moving == if live && ok && how.Moved? then old(moving) + 2 else old(moving)
    {
      FreeForMeans(t.slots[..], t.bits, e.hash);
      var tag, b1 := TagOf(e.hash), Home(e.hash, t.bits);
      var b2 := Alt(b1, tag, t.bits);
      var gap := t.EmptySlot(b1);
      if gap.None? {
        gap := t.EmptySlot(b2);
      }
      if gap.Some? {
        assert FitsAt(WordOf(e), gap.value, t.bits, hasher);
        hide Good, FitsAt, SomeWalkLeads, FreeFor, View;
        StoreAdds(t.slots[..], t.bits, hasher, gap.value, e);
        t.slots[gap.value] := WordOf(e);
        assert t.slots[..] == old(t.slots[..])[gap.value := WordOf(e)];
        return true, Direct(gap.value);
      }
      hide Good, FitsAt, SomeWalkLeads, FreeFor, View;
      ok, how := Displace(t, e, live, b1, b2);
    }

    /** Make room in one of two full buckets by displacement. */
    method Displace(t: Table, e: Entry, live: bool, b1: nat, b2: nat) returns (ok: bool, ghost how: Placing)
      requires Good(t.slots[..], t.bits, hasher)
      requires e.hash == hasher(e.key) && e.key !in View(t.slots[..])
      requires b1 == Home(e.hash, t.bits) && b2 == Alt(b1, TagOf(e.hash), t.bits)
      requires BucketFull(t.slots[..], b1) && BucketFull(t.slots[..], b2)
      modifies t.slots, this`moving, this`kickSeed
      ensures Good(t.slots[..], t.bits, hasher)
      ensures ok <==> SomeWalkLeads(old(t.slots[..]), t.bits, b1, b2, old(kickSeed), MAX_WALKS)
      ensures if ok then View(t.slots[..]) == old(View(t.slots[..]))[e.key := e] else t.slots[..] == old(t.slots[..])
      ensures ok ==> how.Moved? && Placed(old(t.slots[..]), t.slots[..], t.bits, hasher, e, how)
      ensures moving == if live && ok then old(moving) + 2 else old(moving)
    {
      hide SomeWalkLeads, View, Home, Alt, TagOf, Good, FitsAt, PathOk, BucketFull;
      GoodInRange(t.slots[..], t.bits, hasher);
      var found := FindPath(t, b1, b2);
      if found.None? {
        return false, Direct(0);
      }
      var (path, dest) := found.value;
      PathSuits(t.slots[..], t.bits, hasher, path, dest, e);
      if live { moving := moving + 1; }
      DisplacementStarts(t.slots[..], t.bits, hasher, path, dest);
      Shift(t, path, dest, e, old(View(t.slots[..])));
      if live { moving := moving + 1; }
      return true, Moved(path, dest);
    }

    /** Apply a path backwards, last hop first, then store the new word. */
    method Shift(t: Table, path: seq<nat>, dest: nat, e: Entry, ghost m: map<Key, Entry>)
      requires dest < t.slots.Length && Displacing(t.slots[..], t.bits, hasher, path, dest, m)
      requires e.key !in m && FitsAt(WordOf(e), Target(path, dest), t.bits, hasher)
      requires forall j | 0 <= j < |path| :: path[j] < t.slots.Length
      modifies t.slots
      ensures t.slots[..] == Applied(old(t.slots[..]), path, dest, WordOf(e))
      ensures Good(t.slots[..], t.bits, hasher)
      ensures View(t.slots[..]) == m[e.key := e]
    {
      hide Displacing, Good, FitsAt, View, Unique;
      var hole: nat, left: nat := dest, |path|;
      ghost var now := t.slots[..];
      assert path[..left] == path;
      while left > 0
        invariant 0 <= left <= |path| && hole < t.slots.Length && t.slots[..] == now
        invariant Displacing(now, t.bits, hasher, path[..left], hole, m)
        invariant Target(path[..left], hole) == Target(path, dest)
        invariant Applied(now, path[..left], hole, WordOf(e)) == Applied(old(t.slots[..]), path, dest, WordOf(e))
      {
        HopKeepsDisplacing(now, t.bits, hasher, path[..left], hole, m);
        left := left - 1;
        assert path[..left + 1][..left] == path[..left];
        now := now[hole := now[path[left]]];
        t.slots[hole] := t.slots[path[left]];
        hole := path[left];
      }
      DisplacementEnds(now, t.bits, hasher, hole, m, e);
      t.slots[hole] := WordOf(e);
      assert t.slots[..] == now[hole := WordOf(e)];
    }

    /** Rebuild into a table of twice the size, doubling again whenever an entry does not
        fit, for at most `attempts` tables: every smaller size tried refused an entry. Success
        or not, nothing observable changes. */
    method Grow(attempts: nat) returns (ok: bool)
      requires Valid()
      modifies this`table, this`kickSeed, this`moving, this`trace
      ensures Valid() && Contents() == old(Contents()) && len == old(len) && moving == old(moving) && old(trace) <= trace
      ensures ok ==> fresh(table) && fresh(table.slots) && table.bits > old(table.bits)
      ensures !ok ==> table == old(table) && table.slots[..] == old(table.slots[..])
      ensures !ok ==> RefusesUpTo(old(table.slots[..]), old(table.bits), old(table.bits) + attempts, hasher)
      ensures ok ==> RefusesUpTo(old(table.slots[..]), old(table.bits), table.bits - 1, hasher)
    {
      hide Good, View, Shows, Refuses;
      var bits := table.bits + 1;
      for n := 0 to attempts
        invariant bits == old(table.bits) + 1 + n
        invariant RefusesUpTo(table.slots[..], old(table.bits), bits - 1, hasher)
        invariant table == old(table) && table.slots[..] == old(table.slots[..])
        invariant len == old(len) && moving == old(moving) && trace == old(trace)
      {
        var next := new Table(bits);
        var done := Refill(next);
        if done {
          trace := SwapShows(trace, hasher, table.slots[..], table.bits, moving, TableState(next.slots[..], next.bits));
          table := next;
          return true;
        }
        bits := bits + 1;
      }
      return false;
    }

    /** Place every entry of the live table into the empty table `next`. */
    method Refill(next: Table) returns (done: bool)
      requires Valid() && InRange(next.slots[..], next.bits)
      requires next.slots != table.slots && forall p | 0 <= p < next.slots.Length :: next.slots[p].Empty?
      modifies next.slots, this`kickSeed, this`moving
      ensures moving == old(moving)
      ensures done ==> Good(next.slots[..], next.bits, hasher) && View(next.slots[..]) == old(Contents())
      ensures !done ==> Refuses(old(table.slots[..]), next.bits, hasher)
    {
      hide Shows, View, CanPlace, FreeFor;
      ghost var all := table.slots[..];
      MeansOnlyView(next.slots[..], map[]);
      MeansOnlyView(all[..0], map[]);
      for p := 0 to table.slots.Length
        invariant table.slots[..] == all && moving == old(moving)
        invariant Good(next.slots[..], next.bits, hasher)
        invariant View(next.slots[..]) == View(all[..p])
      {
        ViewOfLonger(all, p);
        if table.slots[p].Word? {
          var e := table.slots[p].entry;
          assert FitsAt(all[p], p, table.bits, hasher);
          ghost var filled, seed := next.slots[..], kickSeed;
          var ok, _ := Place(next, e, false);
          if !ok {
            assert RefusesAt(all, next.bits, hasher, p, filled, seed);
            return false;
          }
        }
      }
      assert all[..table.slots.Length] == all;
      return true;
    }

    /** The table is so full that an insertion grows it first. */
    ghost predicate Overloaded()
      reads this, table
    {
      8 * len >= 7 * 8 * Pow2(table.bits)
    }

    /** Insert or replace; `GaveUp` is the model's stand-in for a placement that needs more
        than `attempts` rebuilt tables, and leaves the map as it was. A table that is below
        its load limit and has a place for the key stays the live one. */
    method Insert(e: Entry, attempts: nat) returns (r: Inserted)
      requires Valid() && e.hash == hasher(e.key)
      modifies this`table, this`moving, this`len, this`kickSeed, this`trace, table.slots
      ensures Valid() && old(trace) <= trace
      ensures table == old(table) || (fresh(table) && fresh(table.slots))
      ensures match r
        case Replaced(o) => e.key in old(Contents()) && o == old(Contents())[e.key] && Contents() == old(Contents())[e.key := e]
        case Added => e.key !in old(Contents()) && Contents() == old(Contents())[e.key := e]
        case GaveUp => e.key !in old(Contents()) && Contents() == old(Contents())
      ensures r.Replaced? ==> table == old(table)
      ensures attempts > 0 && !old(Overloaded()) && CanPlace(old(table.slots[..]), old(table.bits), e.hash, old(kickSeed))
          ==> !r.GaveUp? && table == old(table)
      ensures r.Added? && (old(Overloaded()) || !CanPlace(old(table.slots[..]), old(table.bits), e.hash, old(kickSeed)))
          ==> table.bits > old(table.bits)
      ensures r.GaveUp? ==> || table.bits >= old(table.bits) + attempts
                            || RefusesUpTo(table.slots[..], table.bits, table.bits + attempts, hasher)
    {
      hide Good, View, Shows, CanPlace, FreeFor, Refuses;
      var found := table.Find(e.hash, e.key, hasher);
      if found.Some? {
        var previous := table.slots[found.value].entry;
        ReplaceAt(found.value, e);
        return Replaced(previous);
      }
      if len * 8 >= Pow2(table.bits) * SLOTS * MAX_LOAD_EIGHTHS {
        var grown := Grow(attempts);
        if !grown {
          return GaveUp;
        }
      }
      r := PlaceGrowing(e, attempts);
    }

    method ReplaceAt(p: nat, e: Entry)
      requires Valid() && p < table.slots.Length && Holds(table.slots[p], e.key) && e.hash == hasher(e.key)
      requires e.key in Contents()
      modifies this`trace, table.slots
      ensures Valid() && old(trace) <= trace && Contents() == old(Contents())[e.key := e]
    {
      hide Good, View, Shows;
      StoreReplaces(table.slots[..], table.bits, hasher, p, e);
      trace := ReplaceShows(trace, hasher, table.slots[..], table.bits, moving, p, e);
      table.slots[p] := WordOf(e);
      assert table.slots[..] == old(table.slots[..])[p := WordOf(e)];
      assert Contents().Keys == old(Contents()).Keys;
    }

    method PlaceGrowing(e: Entry, attempts: nat) returns (r: Inserted)
      requires Valid() && e.hash == hasher(e.key) && e.key !in Contents()
      modifies this`table, this`moving, this`len, this`kickSeed, this`trace, table.slots
      ensures Valid() && !r.Replaced? && old(trace) <= trace
      ensures table == old(table) || (fresh(table) && fresh(table.slots))
      ensures Contents() == if r.Added? then old(Contents())[e.key := e] else old(Contents())
      ensures attempts > 0 && CanPlace(old(table.slots[..]), old(table.bits), e.hash, old(kickSeed))
          ==> r.Added? && table == old(table)
      ensures r.Added? && !CanPlace(old(table.slots[..]), old(table.bits), e.hash, old(kickSeed))
          ==> table.bits > old(table.bits)
      ensures table.bits >= old(table.bits)
      ensures r.GaveUp? ==> || table.bits >= old(table.bits) + attempts
                            || RefusesUpTo(table.slots[..], table.bits, table.bits + attempts, hasher)
    {
      hide Good, View, Shows, Placed, CanPlace, FreeFor, Refuses;
      ghost var m := Contents();
      for n := 0 to attempts
        invariant table.bits >= old(table.bits) + n
        invariant n == 0 ==> table == old(table) && table.slots[..] == old(table.slots[..]) && kickSeed == old(kickSeed)
        invariant n > 0 ==> !CanPlace(old(table.slots[..]), old(table.bits), e.hash, old(kickSeed))
        invariant Valid() && Contents() == m && old(trace) <= trace
        invariant table == old(table) || (fresh(table) && fresh(table.slots))
      {
        ghost var slots, stamp := table.slots[..], moving;
        var ok, how := Place(table, e, true);
        if ok {
          trace := PlacedShows(trace, hasher, slots, table.slots[..], table.bits, stamp, e, how);
          len := len + 1;
          return Added;
        }
        ok := Grow(attempts);
        if !ok {
          return GaveUp;
        }
      }
      return GaveUp;
    }

    /** Remove `key`, reporting the entry it had. */
    method Remove(hash: nat, key: Key) returns (r: Option<Entry>)
      requires Valid() && hash == hasher(key)
      modifies this`len, this`trace, table.slots
      ensures Valid() && old(trace) <= trace
      ensures r == if key in old(Contents()) then Some(old(Contents())[key]) else None
      ensures Contents() == old(Contents()) - {key}
    {
      var found := table.Find(hash, key, hasher);
      if found.None? {
        return None;
      }
      r := Some(table.slots[found.value].entry);
      ClearAt(found.value);
    }

    /** Remove the entry's key only while it still maps to exactly this entry. */
    method RemoveIfSame(e: Entry) returns (r: Option<Entry>)
      requires Valid() && e.hash == hasher(e.key)
      modifies this`len, this`trace, table.slots
      ensures Valid() && old(trace) <= trace
      ensures r.Some? <==> e.key in old(Contents()) && old(Contents())[e.key].id == e.id
      ensures r.Some? ==> r.value == old(Contents())[e.key]
      ensures Contents() == if r.Some? then old(Contents()) - {e.key} else old(Contents())
    {
      var found := table.Find(e.hash, e.key, hasher);
      if found.None? || table.slots[found.value].entry.id != e.id {
        return None;
      }
      r := Some(table.slots[found.value].entry);
      ClearAt(found.value);
    }

    method ClearAt(p: nat)
      requires Valid() && p < table.slots.Length && table.slots[p].Word?
      modifies this`len, this`trace, table.slots
      ensures Valid() && old(trace) <= trace
      ensures Contents() == old(Contents()) - {old(table.slots[p].entry.key)}
    {
      hide Good, View, Shows;
      ghost var m := Contents();
      KeyIsInView(table.slots[..], table.bits, hasher, p);
      ClearRemoves(table.slots[..], table.bits, hasher, p);
      trace := ClearShows(trace, hasher, table.slots[..], table.bits, moving, p);
      table.slots[p] := Empty;
      assert table.slots[..] == old(table.slots[..])[p := Empty];
      assert |m - {old(table.slots[p].entry.key)}| == |m| - 1 by {
        SmallerByOne(m, old(table.slots[p].entry.key));
      }
      len := len - 1;
    }
  }

  lemma KeyIsInView(s: seq<Slot>, bits: nat, hasher: Key -> nat, p: nat)
    requires Good(s, bits, hasher) && p < |s| && s[p].Word?
    ensures s[p].entry.key in View(s)
  {
    ViewMeans(s);
  }

  lemma SmallerByOne<K, V>(m: map<K, V>, k: K)
    requires k in m
    ensures |m - {k}| == |m| - 1
  {
    assert (m - {k}).Keys == m.Keys - {k};
    assert |(m - {k}).Keys| == |m.Keys - {k}|;
  }

  /** The map of a longer prefix is the map of the shorter one plus the next slot. */
  lemma ViewOfLonger(s: seq<Slot>, p: nat)
    requires Unique(s) && p < |s|
    ensures Unique(s[..p]) && Unique(s[..p + 1])
    ensures s[p].Empty? ==> View(s[..p + 1]) == View(s[..p])
    ensures s[p].Word? ==> s[p].entry.key !in View(s[..p]) && View(s[..p + 1]) == View(s[..p])[s[p].entry.key := s[p].entry]
  {
    var short, long := s[..p], s[..p + 1];
    var padded := long[p := Empty];
    ViewMeans(short);
    forall k | k in View(short)
      ensures s[p].Word? ==> k != s[p].entry.key
    {
      var q := PositionOf(short, k);
      assert s[q] == short[q];
    }
    ViewOfPadding(short, padded);
    if s[p].Word? {
      ViewOfAdd(padded, p, s[p]);
      assert padded[p := s[p]] == long;
    } else {
      assert padded == long;
    }
  }

  /** An empty slot at the end adds nothing. */
  lemma ViewOfPadding(short: seq<Slot>, padded: seq<Slot>)
    requires Unique(short) && padded == short + [Empty]
    ensures Unique(padded) && View(padded) == View(short)
  {
    ViewMeans(short);
    assert forall q | 0 <= q < |short| :: padded[q] == short[q];
    forall k | k in View(short)
      ensures StoredIn(View(short)[k], padded)
    {
      assert StoredIn(View(short)[k], short);
    }
    MeansOnlyView(padded, View(short));
  }
}
