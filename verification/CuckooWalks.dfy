/** The displacement walks as a function of the slots and the generator's seed: which slot
    each hop visits, when a walk ends, and whether any walk of a search leads to room. */
module CuckooWalks {
  import opened Base
  import opened Bits
  import opened Cuckoo

  const MAX_KICKS := 256
  const MAX_WALKS := 4

  function NextSeed(seed: nat): nat {
    (seed * 6364136223846793005 + 1442695040888963407) % HASH_RANGE
  }

  /** The seed before this one: the multiplier is odd, so it has an inverse. */
  function PrevSeed(seed: nat): nat {
    ((seed + HASH_RANGE - 1442695040888963407) * 13877824140714322085) % HASH_RANGE
  }

  /** The generator never merges two 64-bit seeds: walks of different seeds go on differing. */
  lemma SeedsNeverMerge(seed: nat)
    requires seed < HASH_RANGE
    ensures PrevSeed(NextSeed(seed)) == seed && NextSeed(seed) < HASH_RANGE
  {
    var raw := seed * 6364136223846793005 + 1442695040888963407;
    var q, y := raw / HASH_RANGE, NextSeed(seed);
    assert raw == q * HASH_RANGE + y;
    var back := (y + HASH_RANGE - 1442695040888963407) * 13877824140714322085;
    var turns := 4787856489426250814 * seed - q * 13877824140714322085 + 13877824140714322085;
    assert back == turns * HASH_RANGE + seed;
    assert turns >= 0;
    ModUnique(back, HASH_RANGE, turns, seed);
  }

  function SeedAfter(seed: nat, n: nat): nat {
    if n == 0 then seed else NextSeed(SeedAfter(seed, n - 1))
  }

  /** The tag a word at `p` shows. */
  function TagAt(s: seq<Slot>, p: nat): nat {
    if p < |s| && s[p].Word? then s[p].tag else 0
  }

  /** The slot drawn `n` hops into the walk that starts in bucket `b`. */
  function SlotAt(s: seq<Slot>, bits: nat, b: nat, seed: nat, n: nat): (p: nat)
    ensures Bucket(p) == BucketAt(s, bits, b, seed, n)
    decreases n, 1
  {
    SLOTS * BucketAt(s, bits, b, seed, n) + (SeedAfter(seed, n + 1) / 0x2_0000_0000) % SLOTS
  }

  /** The bucket the walk is in after `n` hops. */
  function BucketAt(s: seq<Slot>, bits: nat, b: nat, seed: nat, n: nat): nat
    decreases n, 0
  {
    if n == 0 then b
    else Alt(BucketAt(s, bits, b, seed, n - 1), TagAt(s, SlotAt(s, bits, b, seed, n - 1)), bits)
  }

  predicate HasRoom(s: seq<Slot>, b: nat) {
    exists p | SLOTS * b <= p < SLOTS * b + SLOTS && p < |s| :: s[p].Empty?
  }

  /** The slot drawn at hop `n` was drawn before. */
  predicate Revisits(s: seq<Slot>, bits: nat, b: nat, seed: nat, n: nat) {
    exists j | 0 <= j < n :: SlotAt(s, bits, b, seed, j) == SlotAt(s, bits, b, seed, n)
  }

  predicate EndsAt(s: seq<Slot>, bits: nat, b: nat, seed: nat, n: nat) {
    Revisits(s, bits, b, seed, n) || HasRoom(s, BucketAt(s, bits, b, seed, n + 1))
  }

  /** The hop, from the `n`-th on, at which the walk ends; `MAX_KICKS` if it runs out. */
  function LastHop(s: seq<Slot>, bits: nat, b: nat, seed: nat, n: nat): (last: nat)
    requires n <= MAX_KICKS
    ensures n <= last <= MAX_KICKS && (last < MAX_KICKS ==> EndsAt(s, bits, b, seed, last))
    ensures forall j | n <= j < last :: !EndsAt(s, bits, b, seed, j)
    decreases MAX_KICKS - n
  {
    if n == MAX_KICKS || EndsAt(s, bits, b, seed, n) then n else LastHop(s, bits, b, seed, n + 1)
  }

  /** How often the walk draws: once a hop. */
  function Draws(s: seq<Slot>, bits: nat, b: nat, seed: nat): nat {
    var last := LastHop(s, bits, b, seed, 0);
    if last == MAX_KICKS then last else last + 1
  }

  /** The walk ends because it found room. */
  predicate Leads(s: seq<Slot>, bits: nat, b: nat, seed: nat) {
    var last := LastHop(s, bits, b, seed, 0);
    last < MAX_KICKS && !Revisits(s, bits, b, seed, last)
  }

  /** Within `MAX_KICKS` hops the walk meets a bucket with room, having drawn no slot twice. */
  ghost predicate FindsRoom(s: seq<Slot>, bits: nat, b: nat, seed: nat, n: nat) {
    && n < MAX_KICKS
    && (forall j | 0 <= j <= n :: !Revisits(s, bits, b, seed, j))
    && HasRoom(s, BucketAt(s, bits, b, seed, n + 1))
  }

  lemma LeadsMeans(s: seq<Slot>, bits: nat, b: nat, seed: nat)
    ensures Leads(s, bits, b, seed) <==> exists n :: FindsRoom(s, bits, b, seed, n)
  {
    hide Revisits, HasRoom, BucketAt, LastHop;
    var last := LastHop(s, bits, b, seed, 0);
    if Leads(s, bits, b, seed) {
      forall j | 0 <= j <= last ensures !Revisits(s, bits, b, seed, j) {
        assert j < last ==> !EndsAt(s, bits, b, seed, j);
      }
      assert FindsRoom(s, bits, b, seed, last);
    }
    forall n | FindsRoom(s, bits, b, seed, n) ensures Leads(s, bits, b, seed) {
      assert EndsAt(s, bits, b, seed, n);
    }
  }

  /** A hop drawing slot `p`, none of `path` before it, moves the walk by the word at `p`. */
  lemma NextHop(s: seq<Slot>, bits: nat, b: nat, seed: nat, path: seq<nat>)
    requires |path| < MAX_KICKS && forall j | 0 <= j < |path| :: path[j] == SlotAt(s, bits, b, seed, j)
    ensures BucketAt(s, bits, b, seed, 0) == b && SeedAfter(seed, 0) == seed
    ensures SeedAfter(seed, |path| + 1) == NextSeed(SeedAfter(seed, |path|))
    ensures SlotAt(s, bits, b, seed, |path|)
         == SLOTS * BucketAt(s, bits, b, seed, |path|) + (NextSeed(SeedAfter(seed, |path|)) / 0x2_0000_0000) % SLOTS
    ensures BucketAt(s, bits, b, seed, |path| + 1)
         == Alt(BucketAt(s, bits, b, seed, |path|), TagAt(s, SlotAt(s, bits, b, seed, |path|)), bits)
    ensures Revisits(s, bits, b, seed, |path|) <==> SlotAt(s, bits, b, seed, |path|) in path
    ensures !EndsAt(s, bits, b, seed, |path|)
        ==> LastHop(s, bits, b, seed, |path|) == LastHop(s, bits, b, seed, |path| + 1)
    ensures EndsAt(s, bits, b, seed, |path|) ==> LastHop(s, bits, b, seed, |path|) == |path|
  {
    hide NextSeed, Alt, TagAt, HasRoom;
  }

  ghost predicate BucketFull(s: seq<Slot>, b: nat) {
    SLOTS * b + SLOTS <= |s| && forall p | SLOTS * b <= p < SLOTS * b + SLOTS :: s[p].Word?
  }

  /** A bucket inside the table has room or is full. */
  lemma FullHasNoRoom(s: seq<Slot>, b: nat)
    requires SLOTS * b + SLOTS <= |s|
    ensures HasRoom(s, b) <==> !BucketFull(s, b)
  {
  }

  /** A walk from bucket `start`, `|path|` hops on: it stands in the full bucket `b`, has drawn
      the slots of `path`, and has not ended. */
  ghost predicate Walking(s: seq<Slot>, bits: nat, start: nat, seed0: nat, path: seq<nat>, b: nat, seed: nat) {
    && |path| <= MAX_KICKS && InRange(s, bits) && BucketFull(s, b) && Walk(s, bits, path, b)
    && seed == SeedAfter(seed0, |path|) && b == BucketAt(s, bits, start, seed0, |path|)
    && (forall j | 0 <= j < |path| :: path[j] == SlotAt(s, bits, start, seed0, j))
    && LastHop(s, bits, start, seed0, 0) == LastHop(s, bits, start, seed0, |path|)
  }

  lemma WalkingStarts(s: seq<Slot>, bits: nat, start: nat, seed0: nat)
    requires InRange(s, bits) && BucketFull(s, start)
    ensures Walking(s, bits, start, seed0, [], start, seed0)
  {
    hide LastHop, Alt;
  }

  /** One more hop: the walk meets a slot again, reaches room, or goes on. */
  lemma WalkingHop(s: seq<Slot>, bits: nat, start: nat, seed0: nat, path: seq<nat>, b: nat, seed: nat)
    requires Walking(s, bits, start, seed0, path, b, seed) && |path| < MAX_KICKS
    ensures var p := SLOTS * b + (NextSeed(seed) / 0x2_0000_0000) % SLOTS;
            && p < |s| && s[p].Word? && Bucket(p) == b && NextSeed(seed) == SeedAfter(seed0, |path| + 1)
            && (p in path ==> !Leads(s, bits, start, seed0) && Draws(s, bits, start, seed0) == |path| + 1)
            && (p !in path ==>
                  var next := Alt(b, s[p].tag, bits);
                  && SLOTS * next + SLOTS <= |s| && Walk(s, bits, path + [p], next) && Bucket((path + [p])[0]) == start
                  && (forall j | 0 <= j < |path + [p]| :: (path + [p])[j] == SlotAt(s, bits, start, seed0, j))
                  && (HasRoom(s, next) ==> Leads(s, bits, start, seed0) && Draws(s, bits, start, seed0) == |path| + 1)
                  && (BucketFull(s, next) ==> Walking(s, bits, start, seed0, path + [p], next, NextSeed(seed))))
  {
    hide HasRoom, NextSeed, Alt, SlotAt, BucketAt, LastHop, Revisits, SeedAfter, Walk;
    NextHop(s, bits, start, seed0, path);
    var p := SLOTS * b + (NextSeed(seed) / 0x2_0000_0000) % SLOTS;
    assert p == SlotAt(s, bits, start, seed0, |path|);
    assert s[p].Word?;
    if p !in path {
      WalkExtends(s, bits, path, p);
      FullHasNoRoom(s, Alt(b, s[p].tag, bits));
    }
  }

  lemma WalkingEnds(s: seq<Slot>, bits: nat, start: nat, seed0: nat, path: seq<nat>, b: nat, seed: nat)
    requires Walking(s, bits, start, seed0, path, b, seed) && |path| == MAX_KICKS
    ensures !Leads(s, bits, start, seed0) && Draws(s, bits, start, seed0) == MAX_KICKS && seed == SeedAfter(seed0, MAX_KICKS)
  {
    hide EndsAt, Revisits, SlotAt, BucketAt, Walk, SeedAfter;
  }

  function StartOf(b1: nat, b2: nat, seed: nat): nat {
    if seed % 2 == 0 then b1 else b2
  }

  /** One of the next `walks` walks, each seeded where the one before stopped, leads to room. */
  predicate SomeWalkLeads(s: seq<Slot>, bits: nat, b1: nat, b2: nat, seed: nat, walks: nat)
    decreases walks
  {
    walks > 0 &&
    var b := StartOf(b1, b2, seed);
    Leads(s, bits, b, seed) || SomeWalkLeads(s, bits, b1, b2, SeedAfter(seed, Draws(s, bits, b, seed)), walks - 1)
  }

  /** The seed those walks leave: where the one that led to room stopped, or the last. */
  function SeedLeft(s: seq<Slot>, bits: nat, b1: nat, b2: nat, seed: nat, walks: nat): nat
    decreases walks
  {
    if walks == 0 then seed
    else
      var b := StartOf(b1, b2, seed);
      var next := SeedAfter(seed, Draws(s, bits, b, seed));
      if Leads(s, bits, b, seed) then next else SeedLeft(s, bits, b1, b2, next, walks - 1)
  }

  /** A slot that is empty and that `hash` may use. */
  predicate FreeFor(s: seq<Slot>, bits: nat, hash: nat) {
    exists p | 0 <= p < |s| :: s[p].Empty? && Candidate(p, hash, bits)
  }

  /** Whether a word of this hash can be placed, directly or by displacement. */
  predicate CanPlace(s: seq<Slot>, bits: nat, hash: nat, seed: nat) {
    var b := Home(hash, bits);
    FreeFor(s, bits, hash) || SomeWalkLeads(s, bits, b, Alt(b, TagOf(hash), bits), seed, MAX_WALKS)
  }

  /** A table of this size that held what the first `p` slots of `all` hold had no place for
      the entry of the next one. */
  ghost predicate RefusesAt(all: seq<Slot>, bits: nat, hasher: Key -> nat, p: nat, s: seq<Slot>, seed: nat) {
    && p < |all| && all[p].Word?
    && Good(s, bits, hasher) && View(s) == View(all[..p])
    && !CanPlace(s, bits, all[p].entry.hash, seed)
  }

  /** The entries of `all` were found not to fit a table of this size. */
  ghost predicate Refuses(all: seq<Slot>, bits: nat, hasher: Key -> nat) {
    exists p: nat, s: seq<Slot>, seed: nat :: RefusesAt(all, bits, hasher, p, s, seed)
  }

  ghost predicate RefusesUpTo(all: seq<Slot>, from: nat, to: nat, hasher: Key -> nat) {
    forall bits | from < bits <= to :: Refuses(all, bits, hasher)
  }
}
