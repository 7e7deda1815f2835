/** Which entry has to go: the rules of S3-FIFO as a relation between the queues before and
    after one turn of the eviction loop, and the whole run of turns a set makes. */
module EvictionRules {
  import opened Base
  import opened QueueCosts

  const GHOST_MIN := 64

  function Max(a: nat, b: nat): nat {
    if a < b then b else a
  }

  /** How many of `n` remembered hashes are over the limit. */
  function Excess(n: nat, limit: nat): (x: nat)
    ensures x <= n
  {
    if n > Max(limit, GHOST_MIN) then n - Max(limit, GHOST_MIN) else 0
  }

  function Remembering(order: seq<nat>, members: set<nat>, hash: nat): seq<nat> {
    if hash in members then order else order + [hash]
  }

  /** The newest hashes, within the limit. */
  function PushedOrder(order: seq<nat>, members: set<nat>, hash: nat, limit: nat): seq<nat> {
    var all := Remembering(order, members, hash);
    all[Excess(|all|, limit)..]
  }

  /** What is remembered after a push: everything before and `hash`, less what fell off. */
  function PushedSet(order: seq<nat>, members: set<nat>, hash: nat, limit: nat): set<nat> {
    var all := Remembering(order, members, hash);
    members + {hash} - set h | h in all[..Excess(|all|, limit)]
  }

  /** A push keeps the whole order while it has at most 64 hashes or at most `limit`, and as
      many of the newest as the larger of the two otherwise; what it drops is forgotten. */
  lemma PushedKeepsNewest(order: seq<nat>, members: set<nat>, hash: nat, limit: nat)
    ensures var (all, kept) := (if hash in members then order else order + [hash], PushedOrder(order, members, hash, limit));
            var drop := |all| - |kept|;
            && 0 <= drop && kept == all[drop..]
            && (|all| <= 64 || |all| <= limit ==> drop == 0)
            && (|all| > 64 && |all| > limit ==> |kept| == if limit < 64 then 64 else limit)
            && forall h :: h in PushedSet(order, members, hash, limit) <==> (h in members || h == hash) && h !in all[..drop]
  {
  }

  /** What taking the head of a queue came to. */
  datatype Eviction = Nothing | Dropped(e: Entry) | Promoted(e: Entry) | Evicted(e: Entry)

  /** All that the rules read and change. */
  datatype Queues = Queues(small: seq<Entry>, main: seq<Entry>, freq: map<Entry, nat>, live: set<Entry>,
                           ghostOrder: seq<nat>, ghostSet: set<nat>)

  /** The small queue is served: its head goes for good if dead, to main with its frequency
      reset if read more than once, and out, remembered by hash, otherwise. */
  ghost predicate ServesSmall(q: Queues, r: Eviction, q': Queues) {
    && q.small != [] && !r.Nothing? && r.e == q.small[0] && q'.small == q.small[1..]
    && (r.Dropped? <==> r.e !in q.live)
    && (r.Promoted? <==> r.e in q.live && r.e in q.freq && q.freq[r.e] > 1)
    && q'.main == (if r.Promoted? then q.main + [r.e] else q.main)
    && q'.freq == (if r.Promoted? then q.freq[r.e := 0] else q.freq)
    && q'.live == (if r.Evicted? then q.live - {r.e} else q.live)
    && q'.ghostOrder == (if r.Evicted? then PushedOrder(q.ghostOrder, q.ghostSet, r.e.hash, |q.main|) else q.ghostOrder)
    && q'.ghostSet == (if r.Evicted? then PushedSet(q.ghostOrder, q.ghostSet, r.e.hash, |q.main|) else q.ghostSet)
  }

  /** Main is served: its clock evicts the earliest entry of the lowest level. */
  ghost predicate ServesMain(q: Queues, r: Eviction, q': Queues) {
    && q.main != [] && (r.Dropped? || r.Evicted?) && (r.Evicted? <==> r.e in q.live)
    && (exists i :: 0 <= i < |q.main| && r.e == q.main[i] && ClockEvicts(q.main, q.freq, q.live, i, q'.main, q'.freq))
    && q' == q.(main := q'.main, freq := q'.freq, live := q.live - {r.e})
  }

  /** Small is served while it holds its share or there is nothing in main. */
  ghost predicate SmallIsDue(q: Queues, smallCapacity: nat) {
    q.small != [] && (TotalCost(q.small) >= smallCapacity || q.main == [])
  }

  /** One turn of the eviction loop. */
  ghost predicate Serves(q: Queues, smallCapacity: nat, r: Eviction, q': Queues) {
    if SmallIsDue(q, smallCapacity) then ServesSmall(q, r, q') else ServesMain(q, r, q')
  }

  /** A run of turns: the queues before each turn and after the last, and what each came to. */
  datatype Run = Run(states: seq<Queues>, steps: seq<Eviction>)

  ghost predicate Turns(run: Run, smallCapacity: nat) {
    && |run.states| == |run.steps| + 1
    && forall i | 0 <= i < |run.steps| :: Serves(run.states[i], smallCapacity, run.steps[i], run.states[i + 1])
  }

  /** The live entries that went, in order. */
  function Victims(steps: seq<Eviction>): seq<Entry> {
    if steps == [] then []
    else
      var last := steps[|steps| - 1];
      Victims(steps[..|steps| - 1]) + if last.Evicted? then [last.e] else []
  }

  /** Every turn was needed: with the victims up to it gone, `want` more bytes still did not fit. */
  ghost predicate Needed(steps: seq<Eviction>, used: int, want: nat, capacity: nat) {
    forall i | 0 <= i < |steps| :: used + want > capacity + TotalCost(Victims(steps[..i]))
  }

  /** A run made to fit `want` bytes: it stops as soon as they fit or nothing is queued. */
  ghost predicate Fits(run: Run, q: Queues, smallCapacity: nat, used: int, want: nat, capacity: nat) {
    && Turns(run, smallCapacity) && run.states[0] == q
    && Needed(run.steps, used, want, capacity)
    && var last := run.states[|run.steps|];
       used + want <= capacity + TotalCost(Victims(run.steps)) || (last.small == [] && last.main == [])
  }

  /** The run before the first turn. */
  lemma NoTurns(q: Queues, smallCapacity: nat, used: int, want: nat, capacity: nat) returns (run: Run)
    ensures run == Run([q], []) && Turns(run, smallCapacity) && Needed(run.steps, used, want, capacity)
    ensures Victims(run.steps) == []
  {
    run := Run([q], []);
  }

  /** A turn takes an entry out of the queues, or one step further along them. */
  lemma ServesShrinks(q: Queues, smallCapacity: nat, r: Eviction, q': Queues)
    requires Serves(q, smallCapacity, r, q')
    ensures 2 * |q'.small| + |q'.main| < 2 * |q.small| + |q.main|
  {
  }

  /** One more turn. */
  lemma OneMoreTurn(run: Run, smallCapacity: nat, used: int, want: nat, capacity: nat, r: Eviction, q: Queues)
    returns (more: Run)
    requires Turns(run, smallCapacity) && Serves(run.states[|run.steps|], smallCapacity, r, q)
    requires Needed(run.steps, used, want, capacity)
    requires used + want > capacity + TotalCost(Victims(run.steps))
    ensures more.steps == run.steps + [r] && |more.states| == |more.steps| + 1
    ensures more.states[0] == run.states[0] && more.states[|more.steps|] == q
    ensures Turns(more, smallCapacity) && Needed(more.steps, used, want, capacity)
    ensures Victims(more.steps) == Victims(run.steps) + if r.Evicted? then [r.e] else []
  {
    hide Serves;
    more := Run(run.states + [q], run.steps + [r]);
    var n := |run.steps|;
    assert (run.steps + [r])[..n] == run.steps;
    forall i | 0 <= i < n + 1 ensures used + want > capacity + TotalCost(Victims((run.steps + [r])[..i])) {
      assert (run.steps + [r])[..i] == run.steps[..i];
      assert run.steps[..n] == run.steps;
    }
  }

  // ---- what the rules come to ----

  lemma FirstTurnNeeded(steps: seq<Eviction>, used: int, want: nat, capacity: nat)
    requires Needed(steps, used, want, capacity) && steps != []
    ensures used + want > capacity
  {
    assert Victims(steps[..0]) == [];
  }

  /** Without the last victim the room would not have sufficed. */
  lemma {:induction false} LastVictimNeeded(steps: seq<Eviction>, used: int, want: nat, capacity: nat)
    requires Needed(steps, used, want, capacity) && Victims(steps) != []
    ensures var vs := Victims(steps); used + want + Cost(vs[|vs| - 1]) > capacity + TotalCost(vs)
  {
    var n := |steps| - 1;
    var less, last := Victims(steps[..n]), steps[n];
    if last.Evicted? {
      CostsSplit(less, [last.e], {});
      assert TotalCost([last.e]) == Cost(last.e);
    } else {
      assert less + [] == less;
      forall i | 0 <= i < n ensures used + want > capacity + TotalCost(Victims(steps[..n][..i])) {
        assert steps[..n][..i] == steps[..i];
      }
      LastVictimNeeded(steps[..n], used, want, capacity);
    }
  }

  /** Whoever is evicted is, in the state it leaves, the head of small and read at most once,
      or the earliest entry of the lowest level in main. */
  lemma VictimsAreDue(run: Run, smallCapacity: nat, i: nat)
    requires Turns(run, smallCapacity) && i < |run.steps| && run.steps[i].Evicted?
    ensures var (q, v) := (run.states[i], run.steps[i].e);
            v in q.live &&
            if SmallIsDue(q, smallCapacity) then v == q.small[0] && (v in q.freq ==> q.freq[v] <= 1)
            else exists j :: 0 <= j < |q.main| && v == q.main[j] && IsVictim(q.main, j, q.freq, q.live)
  {
    assert Serves(run.states[i], smallCapacity, run.steps[i], run.states[i + 1]);
    var (q, v) := (run.states[i], run.steps[i].e);
    if !SmallIsDue(q, smallCapacity) {
      var q' := run.states[i + 1];
      var j :| 0 <= j < |q.main| && v == q.main[j] && ClockEvicts(q.main, q.freq, q.live, j, q'.main, q'.freq);
      assert IsVictim(q.main, j, q.freq, q.live);
    }
  }

  /** A turn leaves no choice. */
  lemma ServesOneWay(q: Queues, smallCapacity: nat, r1: Eviction, q1: Queues, r2: Eviction, q2: Queues)
    requires Serves(q, smallCapacity, r1, q1) && Serves(q, smallCapacity, r2, q2)
    ensures r1 == r2 && q1 == q2
  {
    if !SmallIsDue(q, smallCapacity) {
      var i :| 0 <= i < |q.main| && r1.e == q.main[i] && ClockEvicts(q.main, q.freq, q.live, i, q1.main, q1.freq);
      var j :| 0 <= j < |q.main| && r2.e == q.main[j] && ClockEvicts(q.main, q.freq, q.live, j, q2.main, q2.freq);
      VictimIsUnique(q.main, i, j, q.freq, q.live);
    }
  }

  /** Nothing can be served only when nothing is queued. */
  lemma ServesUnlessEmpty(q: Queues, smallCapacity: nat, r: Eviction, q': Queues)
    requires Serves(q, smallCapacity, r, q')
    ensures q.small != [] || q.main != []
  {
  }

  /** The run that makes a given room from given queues is the only one. */
  lemma RunIsDetermined(a: Run, b: Run, q: Queues, smallCapacity: nat, used: int, want: nat, capacity: nat)
    requires Fits(a, q, smallCapacity, used, want, capacity) && Fits(b, q, smallCapacity, used, want, capacity)
    ensures a == b
  {
    hide Serves, Needed, Victims, TotalCost;
    if |a.steps| <= |b.steps| {
      RunsAgree(a, b, q, smallCapacity, |a.steps|);
      NoFurther(a, b, q, smallCapacity, used, want, capacity);
    } else {
      RunsAgree(b, a, q, smallCapacity, |b.steps|);
      NoFurther(b, a, q, smallCapacity, used, want, capacity);
    }
    assert a.states[..|a.steps| + 1] == a.states && b.states[..|a.steps| + 1] == b.states;
    assert a.steps[..|a.steps|] == a.steps && b.steps[..|a.steps|] == b.steps;
  }

  lemma {:induction false} RunsAgree(a: Run, b: Run, q: Queues, smallCapacity: nat, n: nat)
    requires Turns(a, smallCapacity) && Turns(b, smallCapacity) && a.states[0] == b.states[0] == q
    requires n <= |a.steps| && n <= |b.steps|
    ensures a.steps[..n] == b.steps[..n] && a.states[..n + 1] == b.states[..n + 1]
  {
    hide Serves;
    if n == 0 {
      assert a.states[..1] == [q] && b.states[..1] == [q];
    } else {
      RunsAgree(a, b, q, smallCapacity, n - 1);
      assert a.states[n - 1] == a.states[..n][n - 1] == b.states[..n][n - 1] == b.states[n - 1];
      ServesOneWay(a.states[n - 1], smallCapacity, a.steps[n - 1], a.states[n], b.steps[n - 1], b.states[n]);
      assert a.steps[..n] == a.steps[..n - 1] + [a.steps[n - 1]] && b.steps[..n] == b.steps[..n - 1] + [b.steps[n - 1]];
      assert a.states[..n + 1] == a.states[..n] + [a.states[n]] && b.states[..n + 1] == b.states[..n] + [b.states[n]];
    }
  }

  /** Where one run stopped, the other cannot go on. */
  lemma NoFurther(a: Run, b: Run, q: Queues, smallCapacity: nat, used: int, want: nat, capacity: nat)
    requires Fits(a, q, smallCapacity, used, want, capacity) && Fits(b, q, smallCapacity, used, want, capacity)
    requires |a.steps| <= |b.steps| && a.steps == b.steps[..|a.steps|]
    requires a.states[|a.steps|] == b.states[|a.steps|]
    ensures |a.steps| == |b.steps|
  {
    hide Serves;
    var n := |a.steps|;
    assert n < |b.steps| ==> used + want > capacity + TotalCost(Victims(b.steps[..n]));
    if n < |b.steps| {
      ServesUnlessEmpty(b.states[n], smallCapacity, b.steps[n], b.states[n + 1]);
    }
  }

  // ---- the rest of a set ----

  /** The new entry joins main if its hash is remembered, small otherwise. */
  function Joined(q: Queues, e: Entry): Queues {
    if e.hash in q.ghostSet then q.(main := q.main + [e], ghostSet := q.ghostSet - {e.hash})
    else q.(small := q.small + [e])
  }

  /** Dead entries go once they hold more than a quarter of the budget. */
  function Compacted(q: Queues, capacity: nat): Queues {
    if DeadCost(q.small, q.live) + DeadCost(q.main, q.live) <= capacity / 4 then q
    else q.(small := Kept(q.small, q.live), main := Kept(q.main, q.live))
  }
}
