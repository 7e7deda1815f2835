/** The allocator itself. Each section under one lock is one method and one step of the history;
    between two of them other threads run, and what they may do is any legal continuation of the
    history by steps of theirs. */
module SlabAllocator {
  import opened Base
  import opened SizeClasses
  import opened Slab
  import opened SlabMachine

  const HUGE := 0x20_0000

  lemma OneMoreStep(log: seq<Step>, step: Step)
    requires Legal(log) && Enabled(Replay(log), step)
    ensures Legal(log + [step]) && Replay(log + [step]) == After(Replay(log), step)
  {
    hide Enabled, After;
    assert (log + [step])[..|log|] == log;
  }

  /** The history goes on, and what the thread itself did was refilling. */
  predicate Refilling(t: Thread, log: seq<Step>, log': seq<Step>) {
    log <= log' && forall i | |log| <= i < |log'| && log'[i].t == t :: log'[i].Take? || log'[i].Carve? || log'[i].Fill?
  }

  lemma TakeStep(log: seq<Step>, t: Thread, cls: nat, n: nat, keep: nat)
    requires Legal(log) && cls < CLASSES && n > 0 && EmptyHanded(Replay(log).own, t)
    requires |Replay(log).free| == CLASSES && keep == Kept(Replay(log), cls, n)
    ensures var s := Replay(log);
            && Legal(log + [Take(t, cls, n)])
            && Replay(log + [Take(t, cls, n)]) ==
               s.(free := s.free[cls := s.free[cls][..keep]], own := Moved(s.own, s.free[cls][keep..], Hand(t)))
            && InHand(Moved(s.own, s.free[cls][keep..], Hand(t)), t, cls, s.free[cls][keep..])
  {
    hide Legal, Replay, ClassSize, Batch, BumpOk, ChunksOk, RegionsOk, MagazinesOk;
    var s := Replay(log);
    HistoryKeeps(log);
    OneMoreStep(log, Take(t, cls, n));
    ListHolds(s, cls, keep);
    assert Exactly(s.free[cls], s.own, cls, Listed);
  }

  /** The addresses of `n` chunks in a row. */
  function RowList(cur: nat, size: nat, n: nat): (r: seq<nat>)
    ensures |r| == n
  {
    if n == 0 then [] else RowList(cur, size, n - 1) + [cur + Row(n - 1, size)]
  }

  lemma {:induction false} RowInHand(s: State, t: Thread, cls: nat, n: nat)
    requires Inv(s) && s.end >= REGION && cls < CLASSES && s.cur + Row(n, ClassSize(cls)) <= s.end && EmptyHanded(s.own, t)
    ensures InHand(CarvedRow(s, t, cls, n).own, t, cls, RowList(s.cur, ClassSize(cls), n))
  {
    hide ClassSize, Inv;
    if n > 0 {
      RowInHand(s, t, cls, n - 1);
      RowKeeps(s, t, cls, n - 1);
      NewAtCursor(CarvedRow(s, t, cls, n - 1), cls);
    }
  }

  class Allocator {
    var free: seq<seq<nat>>
    var cur: nat
    var end: nat
    var mags: map<Thread, seq<seq<nat>>>
    /** The kernel's next address. */
    var top: nat
    ghost var own: map<nat, Chunk>
    ghost var regions: set<nat>
    ghost var log: seq<Step>

    ghost function Abs(): State
      reads this
    {
      State(free, cur, end, mags, own, regions)
    }

    /** The fields are what the history makes them. */
    ghost predicate Valid()
      reads this
    {
      && Legal(log) && Abs() == Replay(log)
      && top > 0 && forall r | r in regions :: r + REGION <= top
    }

    constructor ()
      ensures Valid() && log == []
    {
      free := seq(CLASSES, _ => []);
      cur, end, mags, top, own, regions, log := 0, 0, map[], 1, map[], {}, [];
    }

    /** Steps of other threads between two steps of `t`. */
    method Others(t: Thread)
      requires Valid()
      modifies this
      ensures Valid() && Meanwhile(t, old(log), log)
    {
    }

    /** Under the list lock: up to `n` chunks off the end of the free list. */
    method TakeListed(t: Thread, cls: nat, n: nat) returns (got: seq<nat>)
      requires Valid() && cls < CLASSES && n > 0 && EmptyHanded(own, t)
      modifies this`free, this`own, this`log
      ensures Valid() && log == old(log) + [Take(t, cls, n)]
      ensures InHand(own, t, cls, got) && |got| <= n && (got == [] ==> own == old(own))
    {
      hide Legal, Replay, InHand, EmptyHanded, Moved;
      Known(log);
      var list := free[cls];
      var keep := |list| - if |list| < n then |list| else n;
      TakeStep(log, t, cls, n, keep);
      got := list[keep..];
      MovedNothing(own, Hand(t));
      own := Moved(own, got, Hand(t));
      free := free[cls := list[..keep]];
      log := log + [Take(t, cls, n)];
    }

    /** A mapping larger than a region, of which the surplus before the first huge page and
        behind the region is given back. */
    method MapRegion() returns (base: nat)
      requires Valid()
      modifies this`top
      ensures RegionFree(base, regions) && base % HUGE == 0 && base + REGION <= top && top >= old(top)
    {
      var addr := top;
      RoundedUp(addr);
      base := addr + HUGE - 1 - (addr + HUGE - 1) % HUGE;
      top := addr + REGION + HUGE;
    }

    /** Under the bump lock: `n` chunks in a row off the region being carved, or off a fresh
        one when they do not fit. */
    method CarveChunks(t: Thread, cls: nat, n: nat) returns (got: seq<nat>)
      requires Valid() && cls < CLASSES && n > 0 && n * ClassSize(cls) <= REGION && EmptyHanded(own, t)
      modifies this`cur, this`end, this`own, this`regions, this`top, this`log
      ensures Valid() && exists base :: log == old(log) + [Carve(t, cls, n, base)]
      ensures InHand(own, t, cls, got) && |got| == n
    {
      hide Legal, Replay, InHand, EmptyHanded, ClassSize, RegionFree, CarvedRow;
      Known(log);
      var size := ClassSize(cls);
      var base := 0;
      if end - cur < n * size {
        base := MapRegion();
        CarveStep(log, t, cls, n, base);
        cur, end := base, base + REGION;
        regions := regions + {base};
      } else {
        CarveStep(log, t, cls, n, base);
      }
      assert Abs() == Fresh(Replay(log), cls, n, base);
      got := CarveInRow(t, cls, n);
      log := log + [Carve(t, cls, n, base)];
    }

    method CarveInRow(t: Thread, cls: nat, n: nat) returns (got: seq<nat>)
      requires end >= REGION
      modifies this`cur, this`own
      ensures Abs() == CarvedRow(old(Abs()), t, cls, n) && got == RowList(old(cur), ClassSize(cls), n)
    {
      hide CarvedRow, ClassSize;
      ghost var s := Abs();
      var size := ClassSize(cls);
      got := [];
      CarvedNone(s, t, cls);
      for i := 0 to n
        invariant Abs() == CarvedRow(s, t, cls, i) && cur == s.cur + Row(i, size) && got == RowList(s.cur, size, i)
      {
        CarvedNext(s, t, cls, i);
        got := got + [cur];
        own := own[cur := Chunk(cls, end - REGION, Hand(t))];
        cur := cur + size;
      }
    }

    /** At least one and up to `n` chunks of the class, from the free list or freshly carved. */
    method Refill(t: Thread, cls: nat, n: nat) returns (got: seq<nat>)
      requires Valid() && cls < CLASSES && n > 0 && n * ClassSize(cls) <= REGION && EmptyHanded(own, t)
      modifies this
      ensures Valid() && Refilling(t, old(log), log)
      ensures (t in mags <==> t in old(mags)) && (t in mags ==> mags[t] == old(mags)[t])
      ensures 0 < |got| <= n && InHand(own, t, cls, got)
    {
      hide Legal, Replay, ClassSize, Moved, CarvedRow;
      got := TakeListed(t, cls, n);
      if got != [] {
        return;
      }
      ghost var before := log;
      Others(t);
      OthersLeaveAlone(t, before, log);
      assert EmptyHanded(own, t);
      got := CarveChunks(t, cls, n);
    }

    /** Everything in the thread's hand goes into its empty magazine. */
    method FillMagazine(t: Thread, cls: nat, got: seq<nat>)
      requires Valid() && Armed(Abs(), t, cls) && mags[t][cls] == [] && InHand(own, t, cls, got) && |got| <= 2 * Batch(cls)
      modifies this`mags, this`own, this`log
      ensures Valid() && log == old(log) + [Fill(t, cls, got)]
      ensures Armed(Abs(), t, cls) && mags[t][cls] == got && EmptyHanded(own, t)
    {
      hide Legal, Replay, Batch;
      Known(log);
      OneMoreStep(log, Fill(t, cls, got));
      own := Moved(own, got, Magazine(t));
      mags := mags[t := mags[t][cls := got]];
      log := log + [Fill(t, cls, got)];
    }

    /** The last chunk of a magazine goes to the caller. */
    method PopMagazine(t: Thread, cls: nat) returns (p: nat)
      requires Valid() && Armed(Abs(), t, cls) && mags[t][cls] != []
      modifies this`mags, this`own, this`log
      ensures Valid() && log == old(log) + [Pop(t, cls)] && p == old(mags)[t][cls][|old(mags)[t][cls]| - 1]
    {
      hide Legal, Replay, Moved;
      Known(log);
      OneMoreStep(log, Pop(t, cls));
      var v := mags[t][cls];
      p := v[|v| - 1];
      own := Moved(own, [p], Caller);
      mags := mags[t := mags[t][cls := v[..|v| - 1]]];
      log := log + [Pop(t, cls)];
    }

    /** Without a magazine the one refilled chunk goes to the caller directly. */
    method HandDirectly(t: Thread, p: nat)
      requires Valid() && p in own && own[p].place == Hand(t)
      modifies this`own, this`log
      ensures Valid() && log == old(log) + [HandOver(t, p)]
    {
      hide Legal, Replay, Moved;
      Known(log);
      OneMoreStep(log, HandOver(t, p));
      own := Moved(own, [p], Caller);
      log := log + [HandOver(t, p)];
    }

    /** From the thread's magazine, refilled if it is empty. */
    method AllocFromMagazine(t: Thread, cls: nat) returns (p: nat)
      requires Valid() && Armed(Abs(), t, cls) && EmptyHanded(own, t)
      modifies this
      ensures Valid() && EmptyHanded(own, t) && Allocated(t, old(log), log, p) && p in own && own[p].cls == cls
    {
      hide ClassSize, Legal, Replay, Enabled, Batch, Moved, InHand, HandedOut;
      BatchBound(cls);
      if mags[t][cls] == [] {
        var got := Refill(t, cls, Batch(cls));
        FillMagazine(t, cls, got);
      }
      GivenFromMagazine(log, t, cls);
      p := PopMagazine(t, cls);
    }

    /** Straight from the shared side, for a thread that has no magazines any more. */
    method AllocDirectly(t: Thread, cls: nat) returns (p: nat)
      requires Valid() && cls < CLASSES && EmptyHanded(own, t)
      modifies this
      ensures Valid() && EmptyHanded(own, t) && Allocated(t, old(log), log, p) && p in own && own[p].cls == cls
    {
      hide ClassSize, Legal, Replay, Enabled, Batch, Moved, InHand, HandedOut;
      BatchBound(cls);
      ClassServesItself(cls);
      var one := Refill(t, cls, 1);
      p := one[0];
      GivenFromHand(log, t, cls, one);
      HandDirectly(t, p);
    }

    /** A chunk that fits `size`, aligned to a cache line, with the class that `FreeChunk` takes
        back; nothing if no class is large enough. The last step of the history gives the chunk
        out, and no caller had it. */
    method Alloc(t: Thread, size: nat) returns (r: Option<(nat, nat)>)
      requires Valid() && size > 0 && EmptyHanded(own, t)
      modifies this
      ensures Valid() && EmptyHanded(own, t)
      ensures r.None? <==> size > MAX_SLAB
      ensures r.None? ==> log == old(log)
      ensures r.Some? ==>
                var (p, cls) := r.value;
                && cls < CLASSES && Some(cls) == ClassOf(size) && size <= ClassSize(cls)
                && p in own && own[p].cls == cls && 0 < p && p % 64 == 0
                && Allocated(t, old(log), log, p)
    {
      hide ClassSize, ClassOf, Legal, Replay, Enabled, Batch, Allocated;
      ClassFits(size);
      if ClassOf(size).None? {
        return None;
      }
      var cls := ClassOf(size).value;
      Known(log);
      var p: nat;
      if t in mags {
        p := AllocFromMagazine(t, cls);
      } else {
        p := AllocDirectly(t, cls);
      }
      Known(log);
      r := Some((p, cls));
    }

    /** A caller gives a chunk back. */
    method FreeChunk(t: Thread, p: nat, cls: nat)
      requires Valid() && p in own && own[p].place == Caller && own[p].cls == cls
      modifies this`free, this`mags, this`own, this`log
      ensures Valid() && log == old(log) + [Free(t, p)] && own.Keys == old(own).Keys
      ensures forall q | q in own :: own[q].place == Caller <==> q != p && old(own)[q].place == Caller
    {
      hide Legal, Replay, After, ClassSize, Batch, Moved;
      Known(log);
      FreeStep(log, t, p);
      if t in mags {
        var v := mags[t][cls] + [p];
        var cap := 2 * Batch(cls);
        if |v| > cap {
          free := free[cls := free[cls] + v[cap / 2..]];
          own := Moved(own, v[cap / 2..], Listed);
          v := v[..cap / 2];
        } else {
          own := Moved(own, [p], Magazine(t));
        }
        mags := mags[t := mags[t][cls := v]];
      } else {
        free := free[cls := free[cls] + [p]];
        own := Moved(own, [p], Listed);
      }
      log := log + [Free(t, p)];
    }

    /** A thread's magazines come into being empty. */
    method EnterThread(t: Thread)
      requires Valid() && t !in mags
      modifies this`mags, this`log
      ensures Valid() && log == old(log) + [Enter(t)]
    {
      hide Legal, Replay;
      Known(log);
      OneMoreStep(log, Enter(t));
      mags := mags[t := seq(CLASSES, _ => [])];
      log := log + [Enter(t)];
    }

    /** An exiting thread gives every magazine back, class by class, while others run; none of
        its chunks is lost. */
    method ExitThread(t: Thread)
      requires Valid() && t in mags && EmptyHanded(own, t)
      modifies this
      ensures Valid() && t !in mags && EmptyHanded(own, t) && old(log) <= log
      ensures forall i | |old(log)| <= i < |log| && log[i].t == t :: log[i].Flush? || log[i].Leave?
      ensures forall p | p in own :: own[p].place != Magazine(t)
    {
      hide Legal, Replay, Moved, Enabled, After;
      Known(log);
      for c := 0 to CLASSES
        invariant Valid() && t in mags && |mags[t]| == CLASSES && EmptyHanded(own, t) && old(log) <= log
        invariant forall i | |old(log)| <= i < |log| && log[i].t == t :: log[i].Flush? || log[i].Leave?
        invariant forall d: nat | d < c :: mags[t][d] == []
      {
        if mags[t][c] != [] {
          FlushMagazine(t, c);
        }
        ghost var before := log;
        Others(t);
        OthersLeaveAlone(t, before, log);
      }
      LeaveThread(t);
    }

    /** Under the list lock: a whole magazine goes onto the free list. */
    method FlushMagazine(t: Thread, cls: nat)
      requires Valid() && Armed(Abs(), t, cls) && EmptyHanded(own, t)
      modifies this`free, this`mags, this`own, this`log
      ensures Valid() && log == old(log) + [Flush(t, cls)] && EmptyHanded(own, t)
      ensures mags == old(mags)[t := old(mags)[t][cls := []]]
    {
      hide Legal, Replay;
      Known(log);
      OneMoreStep(log, Flush(t, cls));
      free := free[cls := free[cls] + mags[t][cls]];
      own := Moved(own, mags[t][cls], Listed);
      mags := mags[t := mags[t][cls := []]];
      log := log + [Flush(t, cls)];
    }

    method LeaveThread(t: Thread)
      requires Valid() && t in mags && |mags[t]| == CLASSES && forall c: nat | c < CLASSES :: mags[t][c] == []
      modifies this`mags, this`log
      ensures Valid() && log == old(log) + [Leave(t)] && t !in mags
      ensures forall p | p in own :: own[p].place != Magazine(t)
    {
      hide Legal, Replay, Enabled, After;
      LeaveStep(log, t);
      mags := mags - {t};
      log := log + [Leave(t)];
    }

    /** Each carved chunk is in exactly one place: with a caller (or in a thread's hand) and on
        no list, or once on the one list of its class that its owner names. */
    lemma OnePlace(p: nat, c: nat, t: Thread)
      requires Valid() && p in own && c < CLASSES && t in mags
      ensures |free| == CLASSES && |mags[t]| == CLASSES
      ensures p in free[c] <==> own[p].cls == c && own[p].place == Listed
      ensures p in mags[t][c] <==> own[p].cls == c && own[p].place == Magazine(t)
      ensures multiset(free[c])[p] <= 1 && multiset(mags[t][c])[p] <= 1 && |mags[t][c]| <= 2 * Batch(c)
    {
      hide Legal, Replay, ClassSize, ChunksOk, BumpOk, Batch;
      HistoryKeeps(log);
      assert MagazineOk(own, t, mags[t]);
      assert Exactly(free[c], own, c, Listed) && Exactly(mags[t][c], own, c, Magazine(t));
      DistinctOnce(free[c], p);
      DistinctOnce(mags[t][c], p);
    }
  }

  /** The chunk goes from no caller to a caller, and that is all. */
  ghost predicate GivesToCaller(own: map<nat, Chunk>, own': map<nat, Chunk>, p: nat) {
    p in own && !own[p].place.Caller? && own' == own[p := own[p].(place := Caller)]
  }

  /** From `log` to `log'` the thread, while others did what they did, refilled its magazine and
      in a last step gave `p` out, which no caller had before that step. */
  ghost predicate Allocated(t: Thread, log: seq<Step>, log': seq<Step>, p: nat)
    requires Legal(log')
  {
    |log'| > |log| &&
    var n := |log'| - 1;
    && Refilling(t, log, log'[..n]) && log'[n].t == t && HandedOut(log', n, p)
    && Legal(log'[..n]) && GivesToCaller(Replay(log'[..n]).own, Replay(log').own, p)
  }

  lemma MovedOne(own: map<nat, Chunk>, p: nat)
    requires p in own
    ensures Moved(own, [p], Caller) == own[p := own[p].(place := Caller)]
  {
  }

  lemma GivenFromMagazine(log: seq<Step>, t: Thread, cls: nat)
    requires Legal(log) && Armed(Replay(log), t, cls) && Replay(log).mags[t][cls] != []
    ensures var v := Replay(log).mags[t][cls];
            var p, log' := v[|v| - 1], log + [Pop(t, cls)];
            && Legal(log') && log'[..|log|] == log && HandedOut(log', |log|, p)
            && p in Replay(log).own && Replay(log).own[p].cls == cls && GivesToCaller(Replay(log).own, Replay(log').own, p)
  {
    hide Legal, Replay, Inv, Moved;
    Known(log);
    HistoryKeeps(log);
    OneMoreStep(log, Pop(t, cls));
    MagazineHolds(Replay(log), t, cls);
    var v := Replay(log).mags[t][cls];
    MovedOne(Replay(log).own, v[|v| - 1]);
    assert (log + [Pop(t, cls)])[..|log|] == log;
  }

  lemma GivenFromHand(log: seq<Step>, t: Thread, cls: nat, one: seq<nat>)
    requires Legal(log) && |one| == 1 && InHand(Replay(log).own, t, cls, one)
    ensures var p, log' := one[0], log + [HandOver(t, one[0])];
            && Legal(log') && log'[..|log|] == log && HandedOut(log', |log|, p) && EmptyHanded(Replay(log').own, t)
            && p in Replay(log).own && Replay(log).own[p].cls == cls && Replay(log).own[p].place == Hand(t)
            && GivesToCaller(Replay(log).own, Replay(log').own, p)
  {
    hide Legal, Replay, Moved;
    Known(log);
    assert one[0] in one;
    OneMoreStep(log, HandOver(t, one[0]));
    MovedOne(Replay(log).own, one[0]);
    assert (log + [HandOver(t, one[0])])[..|log|] == log;
  }

  lemma FreeStep(log: seq<Step>, t: Thread, p: nat)
    requires Legal(log) && Enabled(Replay(log), Free(t, p))
    ensures Legal(log + [Free(t, p)]) && Replay(log + [Free(t, p)]) == Freed(Replay(log), t, p)
    ensures Freed(Replay(log), t, p).own.Keys == Replay(log).own.Keys
    ensures forall q | q in Replay(log).own ::
              Freed(Replay(log), t, p).own[q].place == Caller <==> q != p && Replay(log).own[q].place == Caller
  {
    hide Legal, Replay, Enabled, Freed, Inv;
    HistoryKeeps(log);
    OneMoreStep(log, Free(t, p));
    forall q
      ensures q in Freed(Replay(log), t, p).own <==> q in Replay(log).own
      ensures q in Replay(log).own ==>
                (Freed(Replay(log), t, p).own[q].place == Caller <==> q != p && Replay(log).own[q].place == Caller)
    {
      FreeMovesCallers(Replay(log), t, p, q);
    }
  }

  lemma LeaveStep(log: seq<Step>, t: Thread)
    requires Legal(log) && t in Replay(log).mags && |Replay(log).mags[t]| == CLASSES
    requires forall c: nat | c < CLASSES :: Replay(log).mags[t][c] == []
    ensures Legal(log + [Leave(t)]) && Replay(log + [Leave(t)]) == Replay(log).(mags := Replay(log).mags - {t})
    ensures forall p | p in Replay(log).own :: Replay(log).own[p].place != Magazine(t)
  {
    hide Legal, Replay, ClassSize, Batch;
    var s := Replay(log);
    Known(log);
    HistoryKeeps(log);
    OneMoreStep(log, Leave(t));
    forall p | p in s.own
      ensures s.own[p].place != Magazine(t)
    {
      assert MagazineOk(s.own, t, s.mags[t]);
      assert Exactly(s.mags[t][s.own[p].cls], s.own, s.own[p].cls, Magazine(t));
      assert p !in s.mags[t][s.own[p].cls];
    }
  }

  lemma {:induction false} DistinctOnce(s: seq<nat>, p: nat)
    requires Distinct(s)
    ensures multiset(s)[p] <= 1
  {
    if s != [] {
      DistinctOnce(s[1..], p);
      assert s == [s[0]] + s[1..];
      assert forall i | 0 <= i < |s[1..]| :: s[1..][i] == s[i + 1] && s[0] != s[i + 1];
    }
  }

  /** The state a row is carved from: a fresh region if it does not fit the old one. */
  function Fresh(s: State, cls: nat, n: nat, base: nat): State {
    if s.end - s.cur < n * ClassSize(cls) then WithRegion(s, base) else s
  }

  lemma CarveStep(log: seq<Step>, t: Thread, cls: nat, n: nat, base: nat)
    requires Legal(log) && cls < CLASSES && n > 0 && n * ClassSize(cls) <= REGION && EmptyHanded(Replay(log).own, t)
    requires Replay(log).end - Replay(log).cur < n * ClassSize(cls) ==> RegionFree(base, Replay(log).regions)
    ensures var s1 := Fresh(Replay(log), cls, n, base);
            && s1.end >= REGION && Legal(log + [Carve(t, cls, n, base)])
            && Replay(log + [Carve(t, cls, n, base)]) == CarvedRow(s1, t, cls, n)
            && InHand(CarvedRow(s1, t, cls, n).own, t, cls, RowList(s1.cur, ClassSize(cls), n))
  {
    hide Legal, Replay, ClassSize, Inv, RegionFree, CarvedRow, InHand;
    var s := Replay(log);
    HistoryKeeps(log);
    Known(log);
    SizePositive(cls);
    assert n * ClassSize(cls) > 0;
    OneMoreStep(log, Carve(t, cls, n, base));
    if s.end - s.cur < n * ClassSize(cls) {
      RegionKeeps(s, base);
    }
    RowSteps(n, ClassSize(cls));
    RowInHand(Fresh(s, cls, n, base), t, cls, n);
  }

  lemma CarvedNone(s: State, t: Thread, cls: nat)
    requires s.end >= REGION
    ensures CarvedRow(s, t, cls, 0) == s
  {
  }

  lemma CarvedNext(s: State, t: Thread, cls: nat, i: nat)
    requires s.end >= REGION
    ensures var r := CarvedRow(s, t, cls, i);
            CarvedRow(s, t, cls, i + 1) ==
            r.(cur := r.cur + ClassSize(cls), own := r.own[r.cur := Chunk(cls, r.end - REGION, Hand(t))])
    ensures Row(i + 1, ClassSize(cls)) == Row(i, ClassSize(cls)) + ClassSize(cls)
    ensures RowList(s.cur, ClassSize(cls), i + 1) == RowList(s.cur, ClassSize(cls), i) + [s.cur + Row(i, ClassSize(cls))]
  {
    hide ClassSize;
  }

  /** Clearing the low bits of the address a huge page further on. */
  lemma RoundedUp(addr: nat)
    ensures var x := addr + HUGE - 1; var base := x - x % HUGE;
            addr <= base < addr + HUGE && base % HUGE == 0 && base % 64 == 0
  {
    var x := addr + 0x20_0000 - 1;
    var q := x / 0x20_0000;
    assert x == 0x20_0000 * q + x % 0x20_0000;
    Whole(q);
    assert HUGE == 0x20_0000;
  }

  lemma {:induction false} Whole(q: nat)
    ensures (0x20_0000 * q) % 0x20_0000 == 0 && (0x20_0000 * q) % 64 == 0
  {
    if q > 0 {
      Whole(q - 1);
      PageOn(0x20_0000 * (q - 1));
      LinesOn(0x20_0000 * (q - 1));
    }
  }

  lemma PageOn(x: nat)
    requires x % 0x20_0000 == 0
    ensures (x + 0x20_0000) % 0x20_0000 == 0
  {
  }

  lemma LinesOn(x: nat)
    requires x % 64 == 0
    ensures (x + 0x20_0000) % 64 == 0
  {
  }

  lemma MovedNothing(own: map<nat, Chunk>, place: Place)
    ensures Moved(own, [], place) == own
  {
  }

  /** What every history leaves true, as far as the methods need it. */
  lemma Known(log: seq<Step>)
    requires Legal(log)
    ensures var s := Replay(log);
            && |s.free| == CLASSES && (s.end == s.cur == 0 || s.end >= REGION)
            && (forall t | t in s.mags :: |s.mags[t]| == CLASSES && forall c: nat | c < CLASSES :: |s.mags[t][c]| <= 2 * Batch(c))
            && forall p | p in s.own :: s.own[p].cls < CLASSES && 0 < p && p % 64 == 0
  {
    hide Legal, Replay, ClassSize, Batch, Exactly, Clear;
    var s := Replay(log);
    HistoryKeeps(log);
    forall t | t in s.mags
      ensures MagazineOk(s.own, t, s.mags[t])
    {
    }
    forall p | p in s.own
      ensures ChunkOk(p, s.own[p], s.regions)
    {
    }
  }
}
