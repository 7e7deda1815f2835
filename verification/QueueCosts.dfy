/** Byte accounting over queues of entries, and the clock rule the main queue evicts by. */
module QueueCosts {
  import opened Base

  const FREQ_CAP := 3

  function Cost(e: Entry): nat {
    CostOf(e.key, e.value)
  }

  function TotalCost(q: seq<Entry>): nat {
    if q == [] then 0 else Cost(q[0]) + TotalCost(q[1..])
  }

  /** Bytes of the entries of `q` that are still live. */
  function LiveCost(q: seq<Entry>, live: set<Entry>): nat {
    if q == [] then 0 else (if q[0] in live then Cost(q[0]) else 0) + LiveCost(q[1..], live)
  }

  function DeadCost(q: seq<Entry>, live: set<Entry>): nat {
    if q == [] then 0 else (if q[0] in live then 0 else Cost(q[0])) + DeadCost(q[1..], live)
  }

  predicate NoDup(q: seq<Entry>) {
    forall i, j | 0 <= i < j < |q| :: q[i] != q[j]
  }

  lemma {:induction false} CostsSplit(a: seq<Entry>, b: seq<Entry>, live: set<Entry>)
    ensures TotalCost(a + b) == TotalCost(a) + TotalCost(b)
    ensures LiveCost(a + b, live) == LiveCost(a, live) + LiveCost(b, live)
    ensures DeadCost(a + b, live) == DeadCost(a, live) + DeadCost(b, live)
  {
    if a == [] {
      assert a + b == b;
    } else {
      CostsSplit(a[1..], b, live);
      assert (a + b)[1..] == a[1..] + b;
    }
  }

  /** Every byte of a queue is either live or dead. */
  lemma {:induction false} TotalIsLivePlusDead(q: seq<Entry>, live: set<Entry>)
    ensures TotalCost(q) == LiveCost(q, live) + DeadCost(q, live)
  {
    if q != [] {
      TotalIsLivePlusDead(q[1..], live);
    }
  }

  /** Costs depend on liveness only through the entries in the queue. */
  lemma {:induction false} CostsAgree(q: seq<Entry>, live: set<Entry>, live': set<Entry>)
    requires forall e | e in q :: e in live <==> e in live'
    ensures LiveCost(q, live) == LiveCost(q, live') && DeadCost(q, live) == DeadCost(q, live')
  {
    if q != [] {
      assert q[0] in q;
      assert forall e | e in q[1..] :: e in q;
      CostsAgree(q[1..], live, live');
    }
  }

  /** Killing one live entry of a queue moves exactly its cost from live to dead. */
  lemma {:induction false} CostsOfKill(q: seq<Entry>, live: set<Entry>, e: Entry)
    requires NoDup(q) && e in q && e in live
    ensures LiveCost(q, live) == LiveCost(q, live - {e}) + Cost(e)
    ensures DeadCost(q, live - {e}) == DeadCost(q, live) + Cost(e)
  {
    if q[0] == e {
      CostsAgree(q[1..], live, live - {e});
    } else {
      CostsOfKill(q[1..], live, e);
    }
  }

  /** Bytes of a set of entries, in any order of summation. */
  ghost function SetCost(s: set<Entry>): nat {
    if s == {} then 0 else var e :| e in s; Cost(e) + SetCost(s - {e})
  }

  /** The bytes of the keys and values of an index. */
  ghost function IndexBytes(index: map<Key, Entry>): nat {
    if index == map[] then 0 else var k :| k in index; |k| + |index[k].value| + IndexBytes(index - {k})
  }

  /** An index costs its keys and values, and 128 bytes an entry. */
  lemma {:induction false} IndexCosts(index: map<Key, Entry>)
    requires forall k | k in index :: index[k].key == k
    ensures SetCost(index.Values) == IndexBytes(index) + 128 * |index|
    decreases |index|
  {
    if index == map[] {
      assert index.Values == {};
    } else {
      var k :| k in index && IndexBytes(index) == |k| + |index[k].value| + IndexBytes(index - {k});
      assert (index - {k}).Keys == index.Keys - {k} && |index.Keys - {k}| == |index.Keys| - 1;
      IndexCosts(index - {k});
      ValuesWithout(index, k);
      SetCostWithout(index.Values, index[k]);
    }
  }

  lemma ValuesWithout(entries: map<Key, Entry>, k: Key)
    requires k in entries && forall j | j in entries :: entries[j].key == j
    ensures entries[k] in entries.Values && (entries - {k}).Values == entries.Values - {entries[k]}
  {
    forall e | e in entries.Values - {entries[k]}
      ensures e in (entries - {k}).Values
    {
      var j :| j in entries && entries[j] == e;
      assert j in entries - {k};
    }
  }

  lemma {:induction false} SetCostWithout(s: set<Entry>, e: Entry)
    requires e in s
    ensures SetCost(s) == Cost(e) + SetCost(s - {e})
  {
    var x :| x in s && SetCost(s) == Cost(x) + SetCost(s - {x});
    if x != e {
      SetCostWithout(s - {x}, e);
      SetCostWithout(s - {e}, x);
      assert s - {x} - {e} == s - {e} - {x};
    }
  }

  /** Summing over a queue is summing over the set of its live entries. */
  lemma {:induction false} LiveCostIsSetCost(q: seq<Entry>, live: set<Entry>)
    requires NoDup(q)
    ensures LiveCost(q, live) == SetCost(set e | e in q && e in live)
  {
    var s := set e | e in q && e in live;
    if q == [] {
      assert s == {};
    } else {
      LiveCostIsSetCost(q[1..], live);
      var tail := set e | e in q[1..] && e in live;
      if q[0] in live {
        assert s - {q[0]} == tail;
        SetCostWithout(s, q[0]);
      } else {
        assert s == tail;
      }
    }
  }

  /** The live entries of a queue, in queue order: what compaction keeps. */
  function Kept(q: seq<Entry>, live: set<Entry>): seq<Entry> {
    if q == [] then [] else (if q[0] in live then [q[0]] else []) + Kept(q[1..], live)
  }

  lemma {:induction false} KeptSplit(a: seq<Entry>, b: seq<Entry>, live: set<Entry>)
    ensures Kept(a + b, live) == Kept(a, live) + Kept(b, live)
  {
    if a == [] {
      assert a + b == b;
    } else {
      KeptSplit(a[1..], b, live);
      assert (a + b)[1..] == a[1..] + b && (a + b)[0] == a[0];
      var head := if a[0] in live then [a[0]] else [];
      assert head + (Kept(a[1..], live) + Kept(b, live)) == head + Kept(a[1..], live) + Kept(b, live);
    }
  }

  lemma {:induction false} KeptCosts(q: seq<Entry>, live: set<Entry>)
    ensures TotalCost(Kept(q, live)) == LiveCost(q, live)
    ensures LiveCost(Kept(q, live), live) == LiveCost(q, live)
    ensures DeadCost(Kept(q, live), live) == 0
  {
    if q != [] {
      KeptCosts(q[1..], live);
      var head := if q[0] in live then [q[0]] else [];
      CostsSplit(head, Kept(q[1..], live), live);
    }
  }

  lemma {:induction false} KeptMembers(q: seq<Entry>, live: set<Entry>)
    ensures forall e :: e in Kept(q, live) <==> e in q && e in live
    ensures NoDup(q) ==> NoDup(Kept(q, live))
  {
    if q != [] {
      KeptMembers(q[1..], live);
      assert NoDup(q) ==> NoDup(q[1..]) && q[0] !in q[1..];
      assert forall e :: e in q <==> e == q[0] || e in q[1..];
    }
  }

  // ---- the clock rule of the main queue ----

  /** How many more rounds an entry survives: a dead one goes at once. */
  function Level(e: Entry, freq: map<Entry, nat>, live: set<Entry>): nat {
    if e in live && e in freq then freq[e] else 0
  }

  /** The position evicted next: the lowest level, the earliest among equals. */
  ghost predicate IsVictim(q: seq<Entry>, i: nat, freq: map<Entry, nat>, live: set<Entry>) {
    && i < |q|
    && (forall j | 0 <= j < |q| :: Level(q[i], freq, live) <= Level(q[j], freq, live))
    && (forall j | 0 <= j < i :: Level(q[i], freq, live) < Level(q[j], freq, live))
  }

  /** Frequencies after `rounds` full turns of the queue and `j` entries of the next. */
  function Turned(freq: map<Entry, nat>, q: seq<Entry>, rounds: nat, j: nat): map<Entry, nat>
    requires j <= |q|
  {
    map e | e in freq ::
      if e in q[..j] then Less(freq[e], rounds + 1)
      else if e in q[j..] then Less(freq[e], rounds)
      else freq[e]
  }

  function Less(f: nat, n: nat): nat {
    if f < n then 0 else f - n
  }

  /** The closed form of one eviction from main: the victim at `i` is gone, the entries behind
      it have lost its level and those before it one more, and the queue starts behind it. */
  ghost predicate ClockEvicts(q: seq<Entry>, freq: map<Entry, nat>, live: set<Entry>, i: nat,
                              q': seq<Entry>, freq': map<Entry, nat>)
  {
    && i < |q| && IsVictim(q, i, freq, live)
    && q' == q[i + 1..] + q[..i]
    && freq' == Turned(freq, q, Level(q[i], freq, live), i)
  }

  /** There is exactly one victim. */
  lemma VictimIsUnique(q: seq<Entry>, i: nat, j: nat, freq: map<Entry, nat>, live: set<Entry>)
    requires IsVictim(q, i, freq, live) && IsVictim(q, j, freq, live)
    ensures i == j
  {
    assert Level(q[i], freq, live) <= Level(q[j], freq, live) <= Level(q[i], freq, live);
  }

  /** The queue after `j` entries of it have gone to the back. */
  function Rotated(q: seq<Entry>, j: nat): seq<Entry>
    requires j <= |q|
  {
    q[j..] + q[..j]
  }

  /** After `rounds` turns and `j` entries nobody has run out: every level is at least
      `rounds`, and above it for the entries already passed in this turn. */
  ghost predicate NobodyOut(q: seq<Entry>, freq: map<Entry, nat>, live: set<Entry>, rounds: nat, j: nat) {
    && j <= |q|
    && (forall i | 0 <= i < |q| :: Level(q[i], freq, live) >= rounds)
    && (forall i | 0 <= i < j :: Level(q[i], freq, live) > rounds)
  }

  ghost predicate Clocked(q: seq<Entry>, freq: map<Entry, nat>) {
    NoDup(q) && forall e | e in q :: e in freq && freq[e] <= FREQ_CAP
  }

  /** `main` and `freq` are the queue `q` with frequencies `f0` after `rounds` full turns and
      `j` entries more. */
  ghost predicate Turning(q: seq<Entry>, f0: map<Entry, nat>, live: set<Entry>, rounds: nat, j: nat,
                          main: seq<Entry>, freq: map<Entry, nat>)
  {
    && Clocked(q, f0) && j < |q| && rounds <= FREQ_CAP
    && main == Rotated(q, j) && freq == Turned(f0, q, rounds, j)
    && NobodyOut(q, f0, live, rounds, j)
  }

  lemma TurningStarts(q: seq<Entry>, f0: map<Entry, nat>, live: set<Entry>)
    requires Clocked(q, f0) && q != []
    ensures Turning(q, f0, live, 0, 0, q, f0)
  {
    assert Rotated(q, 0) == q && Turned(f0, q, 0, 0) == f0;
  }

  lemma TurningHead(q: seq<Entry>, f0: map<Entry, nat>, live: set<Entry>, rounds: nat, j: nat,
                    main: seq<Entry>, freq: map<Entry, nat>)
    requires Turning(q, f0, live, rounds, j, main, freq)
    ensures j < |q| && rounds <= FREQ_CAP && main != [] && main[0] == q[j] && main[0] in freq
  {
    assert q[j] in q;
  }

  function NextTurn(rounds: nat, j: nat, n: nat): (nat, nat) {
    if j + 1 == n then (rounds + 1, 0) else (rounds, j + 1)
  }

  /** Decrementing the head and sending it to the back passes one entry of the turn; a full
      turn is the start of the next. */
  lemma TurningStep(q: seq<Entry>, f0: map<Entry, nat>, live: set<Entry>, rounds: nat, j: nat,
                    main: seq<Entry>, freq: map<Entry, nat>)
    requires Turning(q, f0, live, rounds, j, main, freq)
    requires main != [] && main[0] in live && main[0] in freq && freq[main[0]] > 0
    ensures var (r', j') := NextTurn(rounds, j, |q|);
      && Turning(q, f0, live, r', j', main[1..] + [main[0]], freq[main[0] := freq[main[0]] - 1])
      && (r' > rounds || j' > j)
  {
    hide Clocked;
    TurningHead(q, f0, live, rounds, j, main, freq);
    HeadPasses(q, f0, live, rounds, j);
    if j + 1 == |q| {
      TurnedWraps(f0, q, live, rounds);
      LevelBound(q, f0, live);
    }
  }

  lemma LevelBound(q: seq<Entry>, f0: map<Entry, nat>, live: set<Entry>)
    requires Clocked(q, f0) && q != []
    ensures Level(q[0], f0, live) <= FREQ_CAP
  {
    assert q[0] in q;
  }

  lemma TurnedWraps(freq: map<Entry, nat>, q: seq<Entry>, live: set<Entry>, rounds: nat)
    requires NobodyOut(q, freq, live, rounds, |q|)
    ensures Turned(freq, q, rounds, |q|) == Turned(freq, q, rounds + 1, 0)
    ensures Rotated(q, |q|) == Rotated(q, 0)
    ensures NobodyOut(q, freq, live, rounds + 1, 0)
  {
    assert q[..|q|] == q && q[0..] == q;
  }

  lemma HeadPasses(q: seq<Entry>, f0: map<Entry, nat>, live: set<Entry>, rounds: nat, j: nat)
    requires Clocked(q, f0) && j < |q| && q[j] in live && NobodyOut(q, f0, live, rounds, j)
    requires q[j] in Turned(f0, q, rounds, j) && Turned(f0, q, rounds, j)[q[j]] > 0
    ensures Rotated(q, j)[1..] + [q[j]] == Rotated(q, j + 1)
    ensures Turned(f0, q, rounds, j)[q[j] := Turned(f0, q, rounds, j)[q[j]] - 1] == Turned(f0, q, rounds, j + 1)
    ensures NobodyOut(q, f0, live, rounds, j + 1)
  {
    assert q[..j + 1] == q[..j] + [q[j]];
    assert q[j..] == [q[j]] + q[j + 1..];
    assert q[j] !in q[..j] && q[j] !in q[j + 1..];
  }

  /** The head that has run out is the victim. */
  lemma TurningEnds(q: seq<Entry>, f0: map<Entry, nat>, live: set<Entry>, rounds: nat, j: nat,
                    main: seq<Entry>, freq: map<Entry, nat>)
    requires Turning(q, f0, live, rounds, j, main, freq)
    requires main != [] && main[0] in freq && !(main[0] in live && freq[main[0]] > 0)
    ensures j < |q| && main[0] == q[j] && ClockEvicts(q, f0, live, j, main[1..], freq)
  {
    assert q[j] in q;
    assert q[j] !in q[..j] && q[j] in q[j..];
    assert Level(q[j], f0, live) == rounds;
  }
}
