/** The slab as a machine: each section under one lock, and each use a thread makes of its own
    magazines, is one step. A history is the list of steps so far, of all threads. */
module SlabMachine {
  import opened Base
  import opened SizeClasses
  import opened Slab

  datatype State = State(
    free: seq<seq<nat>>,
    cur: nat,
    end: nat,
    mags: map<Thread, seq<seq<nat>>>,
    own: map<nat, Chunk>,
    regions: set<nat>)

  /** `Take` and `Carve` put chunks into the thread's hand, `Fill` moves them to its empty
      magazine; `Pop` and `HandOver` give one to a caller and `Free` takes one back. */
  datatype Step =
    | Enter(t: Thread)
    | Leave(t: Thread)
    | Take(t: Thread, cls: nat, n: nat)
    | Carve(t: Thread, cls: nat, n: nat, base: nat)
    | Fill(t: Thread, cls: nat, got: seq<nat>)
    | Pop(t: Thread, cls: nat)
    | HandOver(t: Thread, p: nat)
    | Free(t: Thread, p: nat)
    | Flush(t: Thread, cls: nat)

  predicate EmptyHanded(own: map<nat, Chunk>, t: Thread) {
    forall p | p in own :: own[p].place != Hand(t)
  }

  /** Exactly these chunks, all of the class, are in the thread's hand. */
  predicate InHand(own: map<nat, Chunk>, t: Thread, cls: nat, got: seq<nat>) {
    && Distinct(got) && (forall p | p in own :: own[p].place == Hand(t) <==> p in got)
    && forall p | p in got :: p in own && own[p].cls == cls
  }

  /** The thread has a magazine for the class. */
  predicate Armed(s: State, t: Thread, cls: nat) {
    cls < CLASSES && t in s.mags && |s.mags[t]| == CLASSES
  }

  ghost predicate Enabled(s: State, step: Step) {
    && |s.free| == CLASSES
    && match step
       case Enter(t) => t !in s.mags
       case Leave(t) => t in s.mags && |s.mags[t]| == CLASSES && forall c: nat | c < CLASSES :: s.mags[t][c] == []
       case Take(t, cls, n) => cls < CLASSES && n > 0 && EmptyHanded(s.own, t)
       case Carve(t, cls, n, base) =>
         && cls < CLASSES && n > 0 && n * ClassSize(cls) <= REGION && EmptyHanded(s.own, t)
         && if s.end - s.cur < n * ClassSize(cls) then RegionFree(base, s.regions) else s.end >= REGION
       case Fill(t, cls, got) =>
         Armed(s, t, cls) && s.mags[t][cls] == [] && InHand(s.own, t, cls, got) && |got| <= 2 * Batch(cls)
       case Pop(t, cls) => Armed(s, t, cls) && s.mags[t][cls] != []
       case HandOver(t, p) => p in s.own && s.own[p].place == Hand(t)
       case Free(t, p) =>
         && p in s.own && s.own[p].place == Caller && s.own[p].cls < CLASSES
         && (t in s.mags ==> Armed(s, t, s.own[p].cls))
       case Flush(t, cls) => Armed(s, t, cls)
  }

  function WithMagazine(s: State, t: Thread, cls: nat, list: seq<nat>): map<Thread, seq<seq<nat>>>
    requires Armed(s, t, cls)
  {
    s.mags[t := s.mags[t][cls := list]]
  }

  /** `n` chunks carved in a row at the cursor. */
  function CarvedRow(s: State, t: Thread, cls: nat, n: nat): (r: State)
    requires s.end >= REGION
    ensures r.end == s.end && r.free == s.free && r.mags == s.mags && r.regions == s.regions
  {
    if n == 0 then s
    else
      var r := CarvedRow(s, t, cls, n - 1);
      r.(cur := r.cur + ClassSize(cls), own := r.own[r.cur := Chunk(cls, r.end - REGION, Hand(t))])
  }

  function WithRegion(s: State, base: nat): State {
    s.(cur := base, end := base + REGION, regions := s.regions + {base})
  }

  function Kept(s: State, cls: nat, n: nat): nat
    requires cls < |s.free|
  {
    |s.free[cls]| - if |s.free[cls]| < n then |s.free[cls]| else n
  }

  /** A chunk given back: to the magazine, of which a full half goes to the list when it gets
      too long, or to the list when the thread has none. */
  ghost function Freed(s: State, t: Thread, p: nat): State
    requires Enabled(s, Free(t, p))
  {
    var cls := s.own[p].cls;
    if t in s.mags then
      var v := s.mags[t][cls] + [p];
      var keep := Batch(cls);
      if |v| > 2 * keep then
        s.(free := s.free[cls := s.free[cls] + v[keep..]],
           mags := WithMagazine(s, t, cls, v[..keep]),
           own := Moved(s.own, v[keep..], Listed))
      else
        s.(mags := WithMagazine(s, t, cls, v), own := Moved(s.own, [p], Magazine(t)))
    else
      s.(free := s.free[cls := s.free[cls] + [p]], own := Moved(s.own, [p], Listed))
  }

  ghost function After(s: State, step: Step): State
    requires Enabled(s, step)
  {
    match step
    case Enter(t) => s.(mags := s.mags[t := seq(CLASSES, _ => [])])
    case Leave(t) => s.(mags := s.mags - {t})
    case Take(t, cls, n) =>
      var keep := Kept(s, cls, n);
      s.(free := s.free[cls := s.free[cls][..keep]], own := Moved(s.own, s.free[cls][keep..], Hand(t)))
    case Carve(t, cls, n, base) =>
      CarvedRow(if s.end - s.cur < n * ClassSize(cls) then WithRegion(s, base) else s, t, cls, n)
    case Fill(t, cls, got) =>
      s.(mags := WithMagazine(s, t, cls, got), own := Moved(s.own, got, Magazine(t)))
    case Pop(t, cls) =>
      var v := s.mags[t][cls];
      s.(mags := WithMagazine(s, t, cls, v[..|v| - 1]), own := Moved(s.own, [v[|v| - 1]], Caller))
    case HandOver(t, p) => s.(own := Moved(s.own, [p], Caller))
    case Free(t, p) => Freed(s, t, p)
    case Flush(t, cls) =>
      s.(free := s.free[cls := s.free[cls] + s.mags[t][cls]], mags := WithMagazine(s, t, cls, []),
         own := Moved(s.own, s.mags[t][cls], Listed))
  }

  // ---- every step keeps the invariant ----

  ghost predicate Inv(s: State) {
    && ListsOk(s.own, s.free) && MagazinesOk(s.own, s.mags)
    && ChunksOk(s.own, s.regions) && RegionsOk(s.regions) && BumpOk(s.cur, s.end, s.own, s.regions)
  }

  lemma EnterKeeps(s: State, t: Thread)
    requires Inv(s) && Enabled(s, Enter(t))
    ensures Inv(After(s, Enter(t)))
  {
    hide ClassSize, ListsOk, ChunksOk, BumpOk, Batch;
    assert MagazineOk(s.own, t, seq(CLASSES, _ => []));
  }

  lemma LeaveKeeps(s: State, t: Thread)
    requires Inv(s) && Enabled(s, Leave(t))
    ensures Inv(After(s, Leave(t)))
  {
    hide ClassSize, ListsOk, BumpOk, Batch, Clear;
    assert MagazineOk(s.own, t, s.mags[t]);
    forall p | p in s.own
      ensures s.own[p].place != Magazine(t)
    {
      assert ChunkOk(p, s.own[p], s.regions);
      assert Exactly(s.mags[t][s.own[p].cls], s.own, s.own[p].cls, Magazine(t));
      assert p !in s.mags[t][s.own[p].cls];
    }
  }

  lemma TakeKeeps(s: State, t: Thread, cls: nat, n: nat)
    requires Inv(s) && Enabled(s, Take(t, cls, n))
    ensures Inv(After(s, Take(t, cls, n)))
  {
    hide ClassSize, ListsOk, MagazinesOk, ChunksOk, BumpOk, Moved;
    var keep := Kept(s, cls, n);
    var got := s.free[cls][keep..];
    ListsTake(s.own, s.free, cls, keep, Hand(t));
    MagazinesUntouched(s.own, s.mags, got, Hand(t));
    MoveKeepsChunks(s.own, s.regions, s.cur, s.end, got, Hand(t));
  }

  lemma FillKeeps(s: State, t: Thread, cls: nat, got: seq<nat>)
    requires Inv(s) && Enabled(s, Fill(t, cls, got))
    ensures Inv(After(s, Fill(t, cls, got)))
  {
    hide ClassSize, ListsOk, MagazinesOk, ChunksOk, BumpOk, Batch, Moved;
    ListsUntouched(s.own, s.free, got, Magazine(t));
    MagazinesGive(s.own, s.mags, t, cls, got);
    MoveKeepsChunks(s.own, s.regions, s.cur, s.end, got, Magazine(t));
    assert s.mags[t][cls] + got == got;
  }

  lemma PopKeeps(s: State, t: Thread, cls: nat)
    requires Inv(s) && Enabled(s, Pop(t, cls))
    ensures Inv(After(s, Pop(t, cls)))
  {
    hide ClassSize, ListsOk, MagazinesOk, ChunksOk, BumpOk, Moved;
    var v := s.mags[t][cls];
    var keep := |v| - 1;
    assert v[keep..] == [v[keep]];
    MagazinesTake(s.own, s.mags, t, cls, keep, Caller);
    ListsUntouched(s.own, s.free, [v[keep]], Caller);
    MoveKeepsChunks(s.own, s.regions, s.cur, s.end, [v[keep]], Caller);
  }

  lemma HandOverKeeps(s: State, t: Thread, p: nat)
    requires Inv(s) && Enabled(s, HandOver(t, p))
    ensures Inv(After(s, HandOver(t, p)))
  {
    hide ClassSize, ListsOk, MagazinesOk, ChunksOk, BumpOk, Moved;
    ListsUntouched(s.own, s.free, [p], Caller);
    MagazinesUntouched(s.own, s.mags, [p], Caller);
    MoveKeepsChunks(s.own, s.regions, s.cur, s.end, [p], Caller);
  }

  /** A tail of a magazine, with chunks just given back behind it, goes to the free list. */
  lemma SpillKeeps(s: State, t: Thread, cls: nat, keep: nat, extra: seq<nat>)
    requires Inv(s) && Armed(s, t, cls) && |s.free| == CLASSES && keep <= |s.mags[t][cls]|
    requires Distinct(extra) && forall p | p in extra :: p in s.own && s.own[p].cls == cls && s.own[p].place == Caller
    ensures var rest := s.mags[t][cls][keep..] + extra;
            Inv(s.(free := s.free[cls := s.free[cls] + rest],
                   mags := WithMagazine(s, t, cls, s.mags[t][cls][..keep]),
                   own := Moved(s.own, rest, Listed)))
  {
    hide ClassSize, ListsOk, MagazinesOk, ChunksOk, BumpOk;
    var rest := s.mags[t][cls][keep..];
    MagazinesTake(s.own, s.mags, t, cls, keep, Hand(t));
    ListsUntouched(s.own, s.free, rest, Hand(t));
    var between, mags := Moved(s.own, rest, Hand(t)), WithMagazine(s, t, cls, s.mags[t][cls][..keep]);
    MoveKeepsChunks(s.own, s.regions, s.cur, s.end, rest, Hand(t));
    DistinctJoin(rest, extra);
    ListsGive(between, s.free, cls, rest + extra);
    MagazinesUntouched(between, mags, rest + extra, Listed);
    MoveKeepsChunks(between, s.regions, s.cur, s.end, rest + extra, Listed);
    assert Moved(between, rest + extra, Listed) == Moved(s.own, rest + extra, Listed);
  }

  lemma DistinctJoin(a: seq<nat>, b: seq<nat>)
    requires Distinct(a) && Distinct(b) && forall p | p in b :: p !in a
    ensures Distinct(a + b)
  {
    forall i, j | 0 <= i < j < |a + b|
      ensures (a + b)[i] != (a + b)[j]
    {
      if i < |a| <= j {
        assert a[i] in a && b[j - |a|] in b;
      }
    }
  }

  lemma FlushKeeps(s: State, t: Thread, cls: nat)
    requires Inv(s) && Enabled(s, Flush(t, cls))
    ensures Inv(After(s, Flush(t, cls)))
  {
    hide Inv, Moved;
    SpillKeeps(s, t, cls, 0, []);
    assert s.mags[t][cls][0..] + [] == s.mags[t][cls] && s.mags[t][cls][..0] == [];
  }

  lemma FreeKeeps(s: State, t: Thread, p: nat)
    requires Inv(s) && Enabled(s, Free(t, p))
    ensures Inv(After(s, Free(t, p)))
  {
    hide ClassSize, ListsOk, MagazinesOk, ChunksOk, BumpOk, Batch, Moved;
    var cls := s.own[p].cls;
    if t in s.mags {
      var v, keep := s.mags[t][cls] + [p], Batch(cls);
      if |v| > 2 * keep {
        SpillKeeps(s, t, cls, keep, [p]);
        assert v[keep..] == s.mags[t][cls][keep..] + [p] && v[..keep] == s.mags[t][cls][..keep];
      } else {
        ListsUntouched(s.own, s.free, [p], Magazine(t));
        MagazinesGive(s.own, s.mags, t, cls, [p]);
        MoveKeepsChunks(s.own, s.regions, s.cur, s.end, [p], Magazine(t));
      }
    } else {
      ListsGive(s.own, s.free, cls, [p]);
      MagazinesUntouched(s.own, s.mags, [p], Listed);
      MoveKeepsChunks(s.own, s.regions, s.cur, s.end, [p], Listed);
    }
  }

  lemma RegionKeeps(s: State, base: nat)
    requires Inv(s) && RegionFree(base, s.regions)
    ensures Inv(WithRegion(s, base))
  {
    hide ClassSize, Exactly, Clear, ListsOk, MagazinesOk;
    assert forall p | p in s.own :: ChunkOk(p, s.own[p], s.regions);
    assert base !in s.regions;
  }

  /** The bytes of `n` chunks in a row. */
  function Row(n: nat, size: nat): nat {
    if n == 0 then 0 else size + Row(n - 1, size)
  }

  lemma {:induction false} RowSteps(n: nat, size: nat)
    ensures Row(n, size) == n * size
  {
    if n > 0 {
      RowSteps(n - 1, size);
      assert n * size == (n - 1) * size + size;
    }
  }

  lemma {:induction false} RowKeeps(s: State, t: Thread, cls: nat, n: nat)
    requires Inv(s) && s.end >= REGION && cls < CLASSES && s.cur + Row(n, ClassSize(cls)) <= s.end
    ensures Inv(CarvedRow(s, t, cls, n)) && CarvedRow(s, t, cls, n).cur == s.cur + Row(n, ClassSize(cls))
  {
    hide ClassSize, ListsOk, MagazinesOk, ChunksOk, BumpOk, RegionsOk;
    if n > 0 {
      var r := CarvedRow(s, t, cls, n - 1);
      RowKeeps(s, t, cls, n - 1);
      CarveOne(r.own, r.regions, r.cur, r.end, cls, Hand(t));
      CarvedIsUnlisted(r.own, r.free, r.mags, r.cur, Chunk(cls, r.end - REGION, Hand(t)));
    }
  }

  lemma CarveKeeps(s: State, t: Thread, cls: nat, n: nat, base: nat)
    requires Inv(s) && Enabled(s, Carve(t, cls, n, base))
    ensures Inv(After(s, Carve(t, cls, n, base)))
  {
    hide ClassSize, Inv, CarvedRow, RegionFree;
    var s1 := if s.end - s.cur < n * ClassSize(cls) then WithRegion(s, base) else s;
    if s.end - s.cur < n * ClassSize(cls) {
      RegionKeeps(s, base);
    }
    RowSteps(n, ClassSize(cls));
    RowKeeps(s1, t, cls, n);
  }

  lemma StepKeeps(s: State, step: Step)
    requires Inv(s) && Enabled(s, step)
    ensures Inv(After(s, step))
  {
    hide Inv, Enabled, After;
    match step {
      case Enter(t) => EnterKeeps(s, t);
      case Leave(t) => LeaveKeeps(s, t);
      case Take(t, cls, n) => TakeKeeps(s, t, cls, n);
      case Carve(t, cls, n, base) => CarveKeeps(s, t, cls, n, base);
      case Fill(t, cls, got) => FillKeeps(s, t, cls, got);
      case Pop(t, cls) => PopKeeps(s, t, cls);
      case HandOver(t, p) => HandOverKeeps(s, t, p);
      case Free(t, p) => FreeKeeps(s, t, p);
      case Flush(t, cls) => FlushKeeps(s, t, cls);
    }
  }

  // ---- what each step does to the chunks ----

  /** The chunk a step gives to a caller. */
  ghost function HandsOut(s: State, step: Step): Option<nat>
    requires Enabled(s, step)
  {
    match step
    case Pop(t, cls) => var v := s.mags[t][cls]; Some(v[|v| - 1])
    case HandOver(_, p) => Some(p)
    case _ => None
  }

  lemma {:induction false} RowAdds(s: State, t: Thread, cls: nat, n: nat)
    requires Inv(s) && s.end >= REGION && cls < CLASSES && s.cur + Row(n, ClassSize(cls)) <= s.end
    ensures forall p | p in s.own :: p in CarvedRow(s, t, cls, n).own && CarvedRow(s, t, cls, n).own[p] == s.own[p]
    ensures forall p | p in CarvedRow(s, t, cls, n).own && p !in s.own ::
              CarvedRow(s, t, cls, n).own[p].cls == cls && CarvedRow(s, t, cls, n).own[p].place == Hand(t)
  {
    hide ClassSize, Inv, ChunksOk, BumpOk, ListsOk, MagazinesOk, RegionsOk;
    if n > 0 {
      var r := CarvedRow(s, t, cls, n - 1);
      RowAdds(s, t, cls, n - 1);
      RowKeeps(s, t, cls, n - 1);
      NewAtCursor(r, cls);
    }
  }

  lemma NewAtCursor(r: State, cls: nat)
    requires Inv(r) && r.end >= REGION && cls < CLASSES && r.cur + ClassSize(cls) <= r.end
    ensures r.cur !in r.own
  {
    hide ClassSize, ListsOk, MagazinesOk, ChunksOk, BumpOk, RegionsOk;
    CarveOne(r.own, r.regions, r.cur, r.end, cls, Caller);
  }

  /** A step gives a chunk to a caller only if no caller has it, takes one back only if a
      caller does, and otherwise leaves what callers hold. */
  lemma StepMovesCallers(s: State, step: Step, p: nat)
    requires Inv(s) && Enabled(s, step)
    ensures HandsOut(s, step) == Some(p) ==> p in s.own && !s.own[p].place.Caller?
    ensures p in s.own ==> p in After(s, step).own
    ensures p in After(s, step).own ==>
              (After(s, step).own[p].place == Caller <==>
                 || HandsOut(s, step) == Some(p)
                 || (p in s.own && s.own[p].place == Caller && !(step.Free? && step.p == p)))
  {
    hide ClassSize, Batch, BumpOk, ChunksOk, RegionsOk, RegionFree;
    match step {
      case Carve(t, cls, n, base) => CarveMovesCallers(s, t, cls, n, base, p);
      case Take(t, cls, n) =>
        ListHolds(s, cls, Kept(s, cls, n));
      case Fill(t, cls, got) =>
      case Pop(t, cls) => MagazineHolds(s, t, cls);
      case Free(t, q) => FreeMovesCallers(s, t, q, p);
      case Flush(t, cls) => MagazineHolds(s, t, cls);
      case _ =>
    }
  }

  lemma ListHolds(s: State, cls: nat, k: nat)
    requires Inv(s) && cls < CLASSES && k <= |s.free[cls]|
    ensures forall p | p in s.free[cls][k..] :: p in s.own && s.own[p].cls == cls && s.own[p].place == Listed
  {
    hide ClassSize, Batch, BumpOk, ChunksOk, RegionsOk, MagazinesOk;
    assert Exactly(s.free[cls], s.own, cls, Listed);
  }

  lemma MagazineHolds(s: State, t: Thread, cls: nat)
    requires Inv(s) && Armed(s, t, cls)
    ensures forall p | p in s.mags[t][cls] :: p in s.own && s.own[p].cls == cls && s.own[p].place == Magazine(t)
  {
    hide ClassSize, Batch, BumpOk, ChunksOk, RegionsOk;
    assert MagazineOk(s.own, t, s.mags[t]);
    assert Exactly(s.mags[t][cls], s.own, cls, Magazine(t));
  }

  lemma FreeMovesCallers(s: State, t: Thread, q: nat, p: nat)
    requires Inv(s) && Enabled(s, Free(t, q))
    ensures p in After(s, Free(t, q)).own <==> p in s.own
    ensures p in s.own ==> (After(s, Free(t, q)).own[p].place == Caller <==> s.own[p].place == Caller && p != q)
  {
    hide ClassSize, Batch, BumpOk, ChunksOk, RegionsOk, ListsOk, MagazinesOk;
    var cls := s.own[q].cls;
    if t in s.mags {
      MagazineHolds(s, t, cls);
      var v := s.mags[t][cls] + [q];
      assert forall x | x in v :: x in s.mags[t][cls] || x == q;
      if |v| > 2 * Batch(cls) {
        assert v[Batch(cls)..][|v| - Batch(cls) - 1] == q;
      }
    }
  }

  lemma CarveMovesCallers(s: State, t: Thread, cls: nat, n: nat, base: nat, p: nat)
    requires Inv(s) && Enabled(s, Carve(t, cls, n, base))
    ensures p in s.own ==> p in After(s, Carve(t, cls, n, base)).own && After(s, Carve(t, cls, n, base)).own[p] == s.own[p]
    ensures p in After(s, Carve(t, cls, n, base)).own && p !in s.own ==>
              After(s, Carve(t, cls, n, base)).own[p].place == Hand(t) && After(s, Carve(t, cls, n, base)).own[p].cls == cls
  {
    hide ClassSize, Inv, CarvedRow, RegionFree;
    var s1 := if s.end - s.cur < n * ClassSize(cls) then WithRegion(s, base) else s;
    if s.end - s.cur < n * ClassSize(cls) {
      RegionKeeps(s, base);
    }
    RowSteps(n, ClassSize(cls));
    RowAdds(s1, t, cls, n);
  }

  // ---- what other threads leave alone ----

  /** What a thread may rely on while others run: its magazines and what it holds in hand stay,
      nothing is put into its hand, and no chunk ever goes away or changes class. */
  ghost predicate Undisturbed(t: Thread, s: State, s': State) {
    && (t in s.mags <==> t in s'.mags) && (t in s.mags ==> s.mags[t] == s'.mags[t])
    && (forall p | p in s.own :: p in s'.own && s'.own[p].cls == s.own[p].cls && s'.own[p].region == s.own[p].region)
    && (forall p | p in s.own && s.own[p].place == Hand(t) :: s'.own[p].place == Hand(t))
    && forall p | p in s'.own && s'.own[p].place == Hand(t) :: p in s.own && s.own[p].place == Hand(t)
  }

  lemma UndisturbedBySelf(t: Thread, s: State)
    ensures Undisturbed(t, s, s)
  {
  }

  lemma UndisturbedTwice(t: Thread, s: State, s1: State, s2: State)
    requires Undisturbed(t, s, s1) && Undisturbed(t, s1, s2)
    ensures Undisturbed(t, s, s2)
  {
  }

  lemma CarveLeavesAlone(s: State, t: Thread, cls: nat, n: nat, base: nat, u: Thread)
    requires Inv(s) && Enabled(s, Carve(t, cls, n, base)) && t != u
    ensures Undisturbed(u, s, After(s, Carve(t, cls, n, base)))
  {
    hide ClassSize, Inv, RegionFree;
    var s' := After(s, Carve(t, cls, n, base));
    forall p
      ensures p in s.own ==> p in s'.own && s'.own[p] == s.own[p]
      ensures p in s'.own && p !in s.own ==> s'.own[p].place == Hand(t)
    {
      CarveMovesCallers(s, t, cls, n, base, p);
    }
  }

  lemma FreeLeavesAlone(s: State, t: Thread, p: nat, u: Thread)
    requires Inv(s) && Enabled(s, Free(t, p)) && t != u
    ensures Undisturbed(u, s, After(s, Free(t, p)))
  {
    hide ClassSize, Inv, Batch;
    if t in s.mags {
      MagazineHolds(s, t, s.own[p].cls);
      assert forall x | x in s.mags[t][s.own[p].cls] + [p] :: x in s.mags[t][s.own[p].cls] || x == p;
    }
  }

  lemma StepLeavesAlone(s: State, step: Step, u: Thread)
    requires Inv(s) && Enabled(s, step) && step.t != u
    ensures Undisturbed(u, s, After(s, step))
  {
    hide ClassSize, Inv, RegionFree, Freed, CarvedRow;
    match step {
      case Carve(t, cls, n, base) => CarveLeavesAlone(s, t, cls, n, base, u);
      case Free(t, p) => FreeLeavesAlone(s, t, p, u);
      case Take(t, cls, n) => ListHolds(s, cls, Kept(s, cls, n));
      case Pop(t, cls) => MagazineHolds(s, t, cls);
      case Flush(t, cls) => MagazineHolds(s, t, cls);
      case _ =>
    }
  }

  // ---- histories ----

  function Start(): State {
    State(seq(CLASSES, _ => []), 0, 0, map[], map[], {})
  }

  /** Every step of the history could be taken where it was. */
  ghost predicate Legal(log: seq<Step>)
    decreases |log|, 0
  {
    log == [] || (Legal(log[..|log| - 1]) && Enabled(Replay(log[..|log| - 1]), log[|log| - 1]))
  }

  ghost function Replay(log: seq<Step>): State
    requires Legal(log)
    decreases |log|, 1
  {
    if log == [] then Start() else After(Replay(log[..|log| - 1]), log[|log| - 1])
  }

  /** The invariant holds after every history. */
  lemma {:induction false} HistoryKeeps(log: seq<Step>)
    requires Legal(log)
    ensures Inv(Replay(log))
  {
    if log == [] {
      StartKeeps();
    } else {
      hide Inv, Enabled, After;
      HistoryKeeps(log[..|log| - 1]);
      StepKeeps(Replay(log[..|log| - 1]), log[|log| - 1]);
    }
  }

  /** After every history: chunks begin on cache lines, lie within the mapped regions, and no
      byte belongs to two of them. */
  lemma NoByteTwice(log: seq<Step>, p: nat, q: nat, byte: nat)
    requires Legal(log) && p in Replay(log).own && q in Replay(log).own
    requires p <= byte < p + ClassSize(Replay(log).own[p].cls) && q <= byte < q + ClassSize(Replay(log).own[q].cls)
    ensures p == q && p % 64 == 0
    ensures exists r :: r in Replay(log).regions && r <= byte < r + REGION
  {
    hide Legal, Replay, ClassSize, ListsOk, MagazinesOk, BumpOk, RegionsOk;
    HistoryKeeps(log);
    var own := Replay(log).own;
    assert ChunkOk(p, own[p], Replay(log).regions);
    assert p != q ==> Clear(p, own[p], q, own[q]);
  }

  lemma StartKeeps()
    ensures Inv(Start())
  {
  }

  lemma {:induction false} LegalPrefix(log: seq<Step>, n: nat)
    requires Legal(log) && n <= |log|
    ensures Legal(log[..n]) && (n < |log| ==> Enabled(Replay(log[..n]), log[n]) && Legal(log[..n + 1]))
    ensures n < |log| ==> Replay(log[..n + 1]) == After(Replay(log[..n]), log[n])
    decreases |log| - n
  {
    hide Enabled, After;
    if n == |log| {
      assert log[..n] == log;
    } else {
      LegalPrefix(log, n + 1);
      assert log[..n + 1][..n] == log[..n];
    }
  }

  /** Step `i` of the history gives chunk `p` to a caller. */
  ghost predicate HandedOut(log: seq<Step>, i: nat, p: nat)
    requires Legal(log)
  {
    i < |log| && Legal(log[..i]) && Enabled(Replay(log[..i]), log[i]) && HandsOut(Replay(log[..i]), log[i]) == Some(p)
  }

  /** A chunk given out and not taken back since is with a caller. */
  lemma {:induction false} CallerHasIt(log: seq<Step>, i: nat, j: nat, p: nat)
    requires Legal(log) && i < j <= |log| && HandedOut(log, i, p)
    requires forall k | i < k < j :: log[k] != Free(log[k].t, p)
    ensures Legal(log[..j]) && p in Replay(log[..j]).own && Replay(log[..j]).own[p].place == Caller
    decreases j
  {
    hide Enabled, After, HandsOut, Inv, Replay, Legal;
    LegalPrefix(log, j - 1);
    HistoryKeeps(log[..j - 1]);
    if j - 1 > i {
      CallerHasIt(log, i, j - 1, p);
    }
    StepMovesCallers(Replay(log[..j - 1]), log[j - 1], p);
  }

  ghost predicate HeldSince(log: seq<Step>, i: nat, p: nat)
    requires Legal(log)
  {
    HandedOut(log, i, p) && forall k | i < k < |log| :: log[k] != Free(log[k].t, p)
  }

  lemma HeldOn(log: seq<Step>, n: nat, i: nat, p: nat)
    requires Legal(log) && |log| == n + 1 && Legal(log[..n]) && HeldSince(log[..n], i, p) && log[n] != Free(log[n].t, p)
    ensures HeldSince(log, i, p)
  {
    hide Legal, Replay, Enabled, HandsOut;
    assert log[..n][..i] == log[..i] && log[..n][i] == log[i];
    assert forall k | i < k < n :: log[..n][k] == log[k];
  }

  /** And a chunk with a caller was given out and not taken back since. */
  lemma {:induction false} CallerGotIt(log: seq<Step>, p: nat)
    requires Legal(log) && p in Replay(log).own && Replay(log).own[p].place == Caller
    ensures exists i: nat :: HeldSince(log, i, p)
  {
    hide Enabled, After, HandsOut, Inv, HeldSince, Legal, Replay;
    StartIsBare(log);
    var n := |log| - 1;
    LegalPrefix(log, n);
    assert log[..n + 1] == log;
    HistoryKeeps(log[..n]);
    StepMovesCallers(Replay(log[..n]), log[n], p);
    if HandsOut(Replay(log[..n]), log[n]) == Some(p) {
      HeldNow(log, n, p);
    } else {
      CallerGotIt(log[..n], p);
      var i: nat :| HeldSince(log[..n], i, p);
      HeldOn(log, n, i, p);
    }
  }

  lemma StartIsBare(log: seq<Step>)
    requires Legal(log) && Replay(log).own != map[]
    ensures log != []
  {
  }

  lemma HeldNow(log: seq<Step>, n: nat, p: nat)
    requires Legal(log) && |log| == n + 1 && Legal(log[..n]) && Enabled(Replay(log[..n]), log[n])
    requires HandsOut(Replay(log[..n]), log[n]) == Some(p)
    ensures HeldSince(log, n, p)
  {
    hide Legal, Replay, Enabled, HandsOut;
  }

  /** No chunk is ever with two callers: between two steps that give it out there is one that
      takes it back. */
  lemma NeverWithTwoCallers(log: seq<Step>, i: nat, j: nat, p: nat)
    requires Legal(log) && i < j && HandedOut(log, i, p) && HandedOut(log, j, p)
    ensures exists k :: i < k < j && log[k] == Free(log[k].t, p)
  {
    hide Enabled, After, HandsOut, Inv, Replay, Legal;
    if forall k | i < k < j :: log[k] != Free(log[k].t, p) {
      CallerHasIt(log, i, j, p);
      HistoryKeeps(log[..j]);
      StepMovesCallers(Replay(log[..j]), log[j], p);
    }
  }

  /** `log'` goes on from `log` with steps of threads other than `t`. */
  predicate Meanwhile(t: Thread, log: seq<Step>, log': seq<Step>) {
    log <= log' && forall i | |log| <= i < |log'| :: log'[i].t != t
  }

  /** Whatever other threads do meanwhile, the thread is not disturbed. */
  lemma {:induction false} OthersLeaveAlone(t: Thread, log: seq<Step>, log': seq<Step>)
    requires Legal(log) && Legal(log') && Meanwhile(t, log, log')
    ensures Undisturbed(t, Replay(log), Replay(log'))
  {
    hide Enabled, After, Inv, Undisturbed;
    if log == log' {
      UndisturbedBySelf(t, Replay(log));
    } else {
      var n := |log'| - 1;
      assert log <= log'[..n];
      OthersLeaveAlone(t, log, log'[..n]);
      HistoryKeeps(log'[..n]);
      StepLeavesAlone(Replay(log'[..n]), log'[n], t);
      UndisturbedTwice(t, Replay(log), Replay(log'[..n]), Replay(log'));
    }
  }
}
