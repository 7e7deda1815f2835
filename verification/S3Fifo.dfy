/** One S3-FIFO shard: an index of live entries, the small, main and ghost queues that
    decide what stays, and the three byte counters. The index is a finite map here, which
    the cuckoo index refines; the two atomics of an entry, its frequency and its live flag,
    are kept per identity in `freq` and `live`. */
module S3Fifo {
  import opened Base
  import opened EvictionRules
  import opened QueueCosts

  /** A read counts up to the cap. */
  function Touched(f: nat): nat {
    if f < FREQ_CAP then f + 1 else f
  }

  function Without(m: map<Key, Entry>, k: Key): map<Key, Entry> {
    m - {k}
  }

  ghost function KeysOf(es: seq<Entry>): set<Key> {
    set e | e in es :: e.key
  }

  // ---- what ties the fields together ----

  /** Every queued entry is queued once, under a known frequency, and every live entry is
      queued, except those in `extra`, which the index holds and no queue does yet. */
  ghost predicate QueuesOk(small: seq<Entry>, main: seq<Entry>, freq: map<Entry, nat>, live: set<Entry>,
                           extra: set<Entry>, nextId: nat)
  {
    && NoDup(small) && NoDup(main)
    && (forall e | e in small :: e !in main)
    && (forall e | e in small || e in main || e in extra :: e in freq && freq[e] <= FREQ_CAP && e.id < nextId)
    && (forall e | e in extra :: e !in small && e !in main && e in live)
    && (forall e | e in live :: e in small || e in main || e in extra)
  }

  ghost predicate AccountsOk(small: seq<Entry>, main: seq<Entry>, live: set<Entry>,
                             used: nat, smallBytes: nat, deadBytes: nat)
  {
    && used == LiveCost(small, live) + LiveCost(main, live)
    && smallBytes == TotalCost(small)
    && deadBytes == DeadCost(small, live) + DeadCost(main, live)
  }

  lemma CountersCount(small: seq<Entry>, main: seq<Entry>, live: set<Entry>, used: nat, smallBytes: nat, deadBytes: nat)
    requires AccountsOk(small, main, live, used, smallBytes, deadBytes)
    ensures smallBytes == TotalCost(small) && deadBytes == DeadCost(small, live) + DeadCost(main, live)
  {
  }

  /** The index holds exactly the live entries, each under its own key. */
  ghost predicate Indexed(index: map<Key, Entry>, live: set<Entry>) {
    && (forall k | k in index :: index[k].key == k && index[k] in live)
    && (forall e | e in live :: e.key in index && index[e.key] == e)
  }

  ghost predicate Within(order: seq<nat>, members: set<nat>) {
    forall h | h in members :: h in order
  }

  /** Conservation and history: every set is live, replaced, deleted or evicted; what the
      index holds is what was last set; and without evictions nothing is missing. */
  ghost predicate HistoryOk(index: map<Key, Entry>, latest: map<Key, Entry>,
                            sets: nat, replaced: nat, deleted: nat, evictions: nat)
  {
    && sets == |index| + replaced + deleted + evictions
    && (forall k | k in index :: k in latest && latest[k] == index[k])
    && (forall k | k in latest :: latest[k].key == k)
    && (evictions == 0 ==> index == latest)
  }

  // ---- steps on those predicates ----

  lemma AccountsOfKill(small: seq<Entry>, main: seq<Entry>, freq: map<Entry, nat>, live: set<Entry>, extra: set<Entry>,
                       nextId: nat, used: nat, smallBytes: nat, deadBytes: nat, e: Entry)
    requires QueuesOk(small, main, freq, live, extra, nextId)
    requires AccountsOk(small, main, live, used, smallBytes, deadBytes)
    requires e in live && e !in extra
    ensures used >= Cost(e)
    ensures AccountsOk(small, main, live - {e}, used - Cost(e), smallBytes, deadBytes + Cost(e))
    ensures QueuesOk(small, main, freq, live - {e}, extra, nextId)
  {
    if e in small {
      CostsOfKill(small, live, e);
      CostsAgree(main, live, live - {e});
    } else {
      CostsOfKill(main, live, e);
      CostsAgree(small, live, live - {e});
    }
  }

  lemma IndexWithout(index: map<Key, Entry>, live: set<Entry>, e: Entry)
    requires Indexed(index, live) && e in live
    ensures e.key in index && index[e.key] == e
    ensures Indexed(Without(index, e.key), live - {e})
    ensures |Without(index, e.key)| == |index| - 1
  {
    assert Without(index, e.key).Keys == index.Keys - {e.key};
    assert |Without(index, e.key).Keys| == |index| - 1;
  }

  lemma IndexWithoutKey(index: map<Key, Entry>, live: set<Entry>, key: Key)
    requires Indexed(index, live) && key in index
    ensures index[key] in live && Indexed(Without(index, key), live - {index[key]})
  {
    IndexWithout(index, live, index[key]);
  }

  lemma IndexWith(index: map<Key, Entry>, live: set<Entry>, e: Entry)
    requires Indexed(index, live) && e !in live && e.key !in index
    ensures Indexed(index[e.key := e], live + {e})
    ensures |index[e.key := e]| == |index| + 1
  {
    OneMoreKey(index, e.key, e);
  }

  lemma OneMoreKey<K, V>(m: map<K, V>, k: K, v: V)
    requires k !in m
    ensures |m[k := v]| == |m| + 1
  {
    assert m[k := v].Keys == m.Keys + {k};
    assert |m[k := v].Keys| == |m.Keys| + 1;
  }

  /** Taking the head off the small queue, when it is already dead. */
  lemma PopSmall(small: seq<Entry>, main: seq<Entry>, freq: map<Entry, nat>, live: set<Entry>, extra: set<Entry>, nextId: nat,
                 used: nat, smallBytes: nat, deadBytes: nat)
    requires QueuesOk(small, main, freq, live, extra, nextId) && small != [] && small[0] !in live
    requires AccountsOk(small, main, live, used, smallBytes, deadBytes)
    ensures smallBytes >= Cost(small[0]) && deadBytes >= Cost(small[0])
    ensures QueuesOk(small[1..], main, freq, live, extra, nextId)
    ensures AccountsOk(small[1..], main, live, used, smallBytes - Cost(small[0]), deadBytes - Cost(small[0]))
  {
    assert forall e | e in small :: e == small[0] || e in small[1..];
  }

  /** Moving a live head of the small queue to the back of main. */
  lemma Promote(small: seq<Entry>, main: seq<Entry>, freq: map<Entry, nat>, live: set<Entry>, extra: set<Entry>, nextId: nat,
                used: nat, smallBytes: nat, deadBytes: nat)
    requires QueuesOk(small, main, freq, live, extra, nextId) && small != [] && small[0] in live
    requires AccountsOk(small, main, live, used, smallBytes, deadBytes)
    ensures smallBytes >= Cost(small[0])
    ensures QueuesOk(small[1..], main + [small[0]], freq[small[0] := 0], live, extra, nextId)
    ensures AccountsOk(small[1..], main + [small[0]], live, used, smallBytes - Cost(small[0]), deadBytes)
  {
    var e := small[0];
    assert e in small;
    assert forall x | x in small :: x == e || x in small[1..];
    CostsSplit(main, [e], live);
    assert LiveCost([e], live) == Cost(e) && DeadCost([e], live) == 0;
    assert NoDup(main + [e]);
  }

  /** Appending an entry the index already holds to one of the two queues. */
  lemma Enqueue(small: seq<Entry>, main: seq<Entry>, freq: map<Entry, nat>, live: set<Entry>, nextId: nat,
                used: nat, smallBytes: nat, deadBytes: nat, e: Entry)
    requires QueuesOk(small, main, freq, live, {e}, nextId)
    requires AccountsOk(small, main, live, used, smallBytes, deadBytes)
    ensures QueuesOk(small + [e], main, freq, live, {}, nextId) && QueuesOk(small, main + [e], freq, live, {}, nextId)
    ensures AccountsOk(small + [e], main, live, used + Cost(e), smallBytes + Cost(e), deadBytes)
    ensures AccountsOk(small, main + [e], live, used + Cost(e), smallBytes, deadBytes)
  {
    assert e in {e};
    CostsSplit(small, [e], live);
    CostsSplit(main, [e], live);
    assert LiveCost([e], live) == Cost(e) && DeadCost([e], live) == 0 && TotalCost([e]) == Cost(e);
    assert NoDup(small + [e]) && NoDup(main + [e]);
  }

  /** Taking the head off main, when it is already dead. */
  lemma PopMain(small: seq<Entry>, main: seq<Entry>, freq: map<Entry, nat>, live: set<Entry>, extra: set<Entry>, nextId: nat,
                used: nat, smallBytes: nat, deadBytes: nat)
    requires QueuesOk(small, main, freq, live, extra, nextId) && main != [] && main[0] !in live
    requires AccountsOk(small, main, live, used, smallBytes, deadBytes)
    ensures deadBytes >= Cost(main[0])
    ensures QueuesOk(small, main[1..], freq, live, extra, nextId)
    ensures AccountsOk(small, main[1..], live, used, smallBytes, deadBytes - Cost(main[0]))
  {
    assert forall e | e in main :: e == main[0] || e in main[1..];
  }

  /** Sending the head of main to its back with a lower frequency. */
  lemma RotateMain(small: seq<Entry>, main: seq<Entry>, freq: map<Entry, nat>, live: set<Entry>, extra: set<Entry>, nextId: nat,
                   used: nat, smallBytes: nat, deadBytes: nat)
    requires QueuesOk(small, main, freq, live, extra, nextId) && main != []
    requires AccountsOk(small, main, live, used, smallBytes, deadBytes)
    ensures main[0] in freq && main[0] !in extra && freq[main[0]] <= FREQ_CAP
    ensures freq[main[0]] > 0 ==>
              QueuesOk(small, main[1..] + [main[0]], freq[main[0] := freq[main[0]] - 1], live, extra, nextId)
    ensures AccountsOk(small, main[1..] + [main[0]], live, used, smallBytes, deadBytes)
  {
    hide LiveCost, DeadCost, TotalCost;
    var e, tail := main[0], main[1..];
    RotatedQueue(main);
    assert main == [e] + tail;
    CostsSplit([e], tail, live);
    CostsSplit(tail, [e], live);
  }

  lemma RotatedQueue(q: seq<Entry>)
    requires NoDup(q) && q != []
    ensures q[0] in q && NoDup(q[1..] + [q[0]]) && forall x :: x in q <==> x in q[1..] + [q[0]]
  {
    assert q == [q[0]] + q[1..];
  }

  /** A freshly allocated entry, live and not queued anywhere. */
  lemma Admit(small: seq<Entry>, main: seq<Entry>, freq: map<Entry, nat>, live: set<Entry>, nextId: nat,
              used: nat, smallBytes: nat, deadBytes: nat, e: Entry)
    requires QueuesOk(small, main, freq, live, {}, nextId) && e.id == nextId
    requires AccountsOk(small, main, live, used, smallBytes, deadBytes)
    ensures e !in live
    ensures QueuesOk(small, main, freq[e := 0], live + {e}, {e}, nextId + 1)
    ensures AccountsOk(small, main, live + {e}, used, smallBytes, deadBytes)
  {
    CostsAgree(small, live, live + {e});
    CostsAgree(main, live, live + {e});
  }

  lemma IndexReplaced(index: map<Key, Entry>, live: set<Entry>, e: Entry)
    requires Indexed(index, live) && e !in live
    ensures Indexed(index[e.key := e], if e.key in index then live + {e} - {index[e.key]} else live + {e})
    ensures |index[e.key := e]| == if e.key in index then |index| else |index| + 1
  {
    if e.key in index {
      var o := index[e.key];
      IndexWithout(index, live, o);
      IndexWith(Without(index, e.key), live - {o}, e);
      assert Without(index, e.key)[e.key := e] == index[e.key := e];
      assert live - {o} + {e} == live + {e} - {o};
    } else {
      IndexWith(index, live, e);
    }
  }

  /** The budget in use is the cost of the index, apart from the entry not queued yet. */
  lemma UsedIsIndexCost(small: seq<Entry>, main: seq<Entry>, freq: map<Entry, nat>, live: set<Entry>, extra: set<Entry>,
                        nextId: nat, used: nat, smallBytes: nat, deadBytes: nat, index: map<Key, Entry>)
    requires QueuesOk(small, main, freq, live, extra, nextId) && Indexed(index, live)
    requires AccountsOk(small, main, live, used, smallBytes, deadBytes)
    ensures SetCost(index.Values - extra) == used
  {
    hide LiveCost, DeadCost, TotalCost, SetCost;
    var q := small + main;
    JoinedNoDup(small, main);
    CostsSplit(small, main, live);
    LiveCostIsSetCost(q, live);
    assert index.Values - extra == set e | e in q && e in live;
  }

  lemma JoinedNoDup(a: seq<Entry>, b: seq<Entry>)
    requires NoDup(a) && NoDup(b) && forall e | e in a :: e !in b
    ensures NoDup(a + b)
  {
    forall i, j | 0 <= i < j < |a + b|
      ensures (a + b)[i] != (a + b)[j]
    {
      if i < |a| <= j {
        assert a[i] in a && b[j - |a|] in b;
      }
    }
  }

  lemma CompactKeeps(small: seq<Entry>, main: seq<Entry>, freq: map<Entry, nat>, live: set<Entry>, nextId: nat,
                     used: nat, smallBytes: nat, deadBytes: nat)
    requires QueuesOk(small, main, freq, live, {}, nextId)
    requires AccountsOk(small, main, live, used, smallBytes, deadBytes)
    ensures QueuesOk(Kept(small, live), Kept(main, live), freq, live, {}, nextId)
    ensures AccountsOk(Kept(small, live), Kept(main, live), live, used, LiveCost(small, live), 0)
  {
    KeptMembers(small, live);
    KeptMembers(main, live);
    KeptCosts(small, live);
    KeptCosts(main, live);
  }

  lemma HistoryOfSet(index: map<Key, Entry>, latest: map<Key, Entry>, sets: nat, replaced: nat, deleted: nat, evictions: nat, e: Entry)
    requires HistoryOk(index, latest, sets, replaced, deleted, evictions)
    ensures HistoryOk(index[e.key := e], latest[e.key := e], sets + 1,
                      if e.key in index then replaced + 1 else replaced, deleted, evictions)
  {
    assert index[e.key := e].Keys == index.Keys + {e.key};
    assert |index[e.key := e].Keys| == if e.key in index then |index| else |index| + 1;
  }

  method Swap(a: array<Entry>, i: nat, j: nat)
    requires i < a.Length && j < a.Length
    modifies a
    ensures a[..] == old(a[..])[i := old(a[j])][j := old(a[i])]
  {
    a[i], a[j] := a[j], a[i];
  }

  /** Stable removal of dead entries in place: live ones are swapped forward, and the cost of
      what is kept is summed in the same pass. */
  method Compact(a: array<Entry>, live: set<Entry>) returns (w: nat, kept: nat)
    modifies a
    ensures w <= a.Length && a[..w] == Kept(old(a[..]), live)
    ensures multiset(a[..]) == multiset(old(a[..]))
    ensures kept == LiveCost(old(a[..]), live)
  {
    hide Kept, LiveCost, Cost;
    ghost var all, now := a[..], a[..];
    w, kept := 0, 0;
    CompactStarts(all, live);
    for i := 0 to a.Length
      invariant w <= i && a[..] == now && Compacting(all, now, i, w, kept, live)
    {
      CompactStep(all, now, i, w, kept, live);
      if a[i] in live {
        kept := kept + Cost(a[i]);
        now := now[w := now[i]][i := now[w]];
        Swap(a, w, i);
        w := w + 1;
      }
    }
    assert all[..a.Length] == all && a[..w] == now[..w];
  }

  /** The first `i` entries have been looked at, and the first `w` slots hold what is kept. */
  ghost predicate Compacting(all: seq<Entry>, now: seq<Entry>, i: nat, w: nat, kept: nat, live: set<Entry>) {
    && |now| == |all| && w <= i <= |all|
    && now[..w] == Kept(all[..i], live) && now[i..] == all[i..]
    && multiset(now) == multiset(all)
    && kept == LiveCost(all[..i], live)
  }

  lemma CompactStarts(all: seq<Entry>, live: set<Entry>)
    ensures Compacting(all, all, 0, 0, 0, live)
  {
    assert all[..0] == [];
  }

  lemma CompactStep(all: seq<Entry>, now: seq<Entry>, i: nat, w: nat, kept: nat, live: set<Entry>)
    requires Compacting(all, now, i, w, kept, live) && i < |all|
    ensures now[i] == all[i]
    ensures now[i] in live ==> Compacting(all, now[w := now[i]][i := now[w]], i + 1, w + 1, kept + Cost(now[i]), live)
    ensures now[i] !in live ==> Compacting(all, now, i + 1, w, kept, live)
  {
    var e := all[i];
    assert now[i] == now[i..][0] == e;
    assert all[..i + 1] == all[..i] + [e];
    KeptSplit(all[..i], [e], live);
    CostsSplit(all[..i], [e], live);
    if e in live {
      assert Kept([e], live) == [e] && LiveCost([e], live) == Cost(e);
      var next := now[w := now[i]][i := now[w]];
      assert next[..w + 1] == now[..w] + [e];
      assert next[i + 1..] == now[i..][1..];
      SwapKeepsMultiset(now, w, i);
    } else {
      assert Kept([e], live) == [] && LiveCost([e], live) == 0;
      assert now[i + 1..] == now[i..][1..];
    }
  }

  lemma SwapKeepsMultiset(s: seq<Entry>, i: nat, j: nat)
    requires i <= j < |s|
    ensures multiset(s[i := s[j]][j := s[i]]) == multiset(s)
  {
  }

  lemma DropOldest(all: seq<nat>, n: nat, from: set<nat>, order: seq<nat>, members: set<nat>)
    requires n < |all| && order == all[n..] && Within(order, members) && members == from - set h | h in all[..n]
    ensures order[1..] == all[n + 1..] && Within(order[1..], members - {order[0]})
    ensures var dropped := all[..n + 1]; members - {order[0]} == from - set h | h in dropped
  {
    assert all[..n + 1] == all[..n] + [order[0]];
    assert forall h | h in order :: h == order[0] || h in order[1..];
  }

  class Shard {
    const capacity: nat
    const smallCapacity: nat
    var index: map<Key, Entry>
    var small: seq<Entry>
    var main: seq<Entry>
    var ghostOrder: seq<nat>
    var ghostSet: set<nat>
    var used: nat
    var smallBytes: nat
    var deadBytes: nat
    var freq: map<Entry, nat>
    var live: set<Entry>
    var nextId: nat
    var evictions: nat
    ghost var latest: map<Key, Entry>
    ghost var sets: nat
    ghost var replaced: nat
    ghost var deleted: nat

    /** The shard invariant, with the entries of `extra` indexed but not queued yet. */
    ghost predicate ValidWith(extra: set<Entry>)
      reads this
    {
      && smallCapacity == capacity / 10
      && QueuesOk(small, main, freq, live, extra, nextId)
      && AccountsOk(small, main, live, used, smallBytes, deadBytes)
      && Indexed(index, live)
      && Within(ghostOrder, ghostSet)
      && HistoryOk(index, latest, sets, replaced, deleted, evictions)
    }

    ghost predicate Valid()
      reads this
    {
      ValidWith({}) && deadBytes <= capacity / 4
    }

    /** The queues as the eviction rules see them. */
    ghost function Now(): Queues
      reads this
    {
      Queues(small, main, freq, live, ghostOrder, ghostSet)
    }

    constructor (capacity: nat)
      ensures Valid() && this.capacity == capacity && index == map[] && latest == map[] && evictions == 0
    {
      this.capacity := capacity;
      smallCapacity := capacity / 10;
      index, small, main, ghostOrder, ghostSet := map[], [], [], [], {};
      used, smallBytes, deadBytes, freq, live, nextId, evictions := 0, 0, 0, map[], {}, 0, 0;
      latest, sets, replaced, deleted := map[], 0, 0, 0;
    }

    lemma EmptyUsesNothing()
      requires Valid() && index == map[]
      ensures used == 0
    {
      UsedIsIndexCost(small, main, freq, live, {}, nextId, used, smallBytes, deadBytes, index);
    }

    /** The counters are the costs they stand for, and every set performed is live, replaced,
        deleted or evicted. */
    lemma Conservation()
      requires Valid()
      ensures used == SetCost(index.Values) && smallBytes == TotalCost(small)
      ensures deadBytes == DeadCost(small, live) + DeadCost(main, live) <= capacity / 4
      ensures TotalCost(small) + TotalCost(main) == used + deadBytes
      ensures sets == |index| + replaced + deleted + evictions
      ensures forall h | h in ghostSet :: h in ghostOrder
    {
      hide LiveCost, DeadCost, TotalCost, SetCost;
      UsedIsIndexCost(small, main, freq, live, {}, nextId, used, smallBytes, deadBytes, index);
      assert index.Values - {} == index.Values;
      TotalIsLivePlusDead(small, live);
      TotalIsLivePlusDead(main, live);
    }

    /** What counts as used is the keys and values in the index, and 128 bytes an entry. */
    lemma UsedIsBytes()
      requires Valid()
      ensures used == IndexBytes(index) + 128 * |index|
    {
      hide LiveCost, DeadCost, TotalCost, SetCost, Cost;
      Conservation();
      IndexCosts(index);
    }

    /** A key in the index holds what was last set under it, and without evictions no key is
        missing. */
    lemma History()
      requires Valid()
      ensures forall k | k in index :: k in latest && latest[k] == index[k]
      ensures forall k | k in latest :: latest[k].key == k
      ensures evictions == 0 ==> index == latest
    {
    }

    // ---- the ghost queue ----

    /** Whether `hash` was remembered; it no longer is. Its copy in the order stays behind. */
    method GhostTake(hash: nat) returns (hit: bool)
      requires Within(ghostOrder, ghostSet)
      modifies this`ghostSet
      ensures hit == (hash in old(ghostSet)) && ghostSet == old(ghostSet) - {hash}
      ensures Within(ghostOrder, ghostSet)
    {
      hit := hash in ghostSet;
      ghostSet := ghostSet - {hash};
    }

    /** Remember `hash` at the end of the order, then forget from the front down to the limit:
        the order keeps its newest hashes, and exactly the hashes dropped leave the set. */
    method GhostPush(hash: nat, limit: nat)
      requires Within(ghostOrder, ghostSet)
      modifies this`ghostOrder, this`ghostSet
      ensures Within(ghostOrder, ghostSet) && |ghostOrder| <= Max(limit, GHOST_MIN)
      ensures ghostOrder == PushedOrder(old(ghostOrder), old(ghostSet), hash, limit)
      ensures ghostSet == PushedSet(old(ghostOrder), old(ghostSet), hash, limit)
    {
      if hash !in ghostSet {
        ghostSet := ghostSet + {hash};
        ghostOrder := ghostOrder + [hash];
      }
      ghost var all, n := ghostOrder, 0;
      assert old(ghostSet) + {hash} == ghostSet;
      while |ghostOrder| > Max(limit, GHOST_MIN)
        invariant 0 <= n <= Excess(|all|, limit) && ghostOrder == all[n..]
        invariant Within(ghostOrder, ghostSet)
        invariant ghostSet == old(ghostSet) + {hash} - set h | h in all[..n]
      {
        var oldest := ghostOrder[0];
        DropOldest(all, n, old(ghostSet) + {hash}, ghostOrder, ghostSet);
        ghostOrder := ghostOrder[1..];
        ghostSet := ghostSet - {oldest};
        n := n + 1;
      }
    }

    // ---- eviction ----

    /** Mark an entry removed from the index as dead and release its budget. */
    method Kill(e: Entry, ghost extra: set<Entry>)
      requires QueuesOk(small, main, freq, live, extra, nextId)
      requires AccountsOk(small, main, live, used, smallBytes, deadBytes)
      requires e !in extra
      modifies this`live, this`used, this`deadBytes
      ensures live == old(live) - {e}
      ensures used == old(used) - (if e in old(live) then Cost(e) else 0)
      ensures QueuesOk(small, main, freq, live, extra, nextId)
      ensures AccountsOk(small, main, live, used, smallBytes, deadBytes)
    {
      hide QueuesOk, AccountsOk;
      if e in live {
        AccountsOfKill(small, main, freq, live, extra, nextId, used, smallBytes, deadBytes, e);
        live := live - {e};
        used := used - Cost(e);
        deadBytes := deadBytes + Cost(e);
      } else {
        assert live - {e} == live;
      }
    }

    /** Take a live entry out of the index and mark it dead, counting an eviction. */
    method Unlink(e: Entry, ghost extra: set<Entry>)
      requires ValidWith(extra) && e in live && e !in extra
      modifies this`index, this`live, this`used, this`deadBytes, this`evictions
      ensures ValidWith(extra)
      ensures index == Without(old(index), e.key) && live == old(live) - {e}
      ensures used == old(used) - Cost(e) && evictions == old(evictions) + 1
    {
      hide QueuesOk, AccountsOk, Indexed, Within, HistoryOk, Without;
      IndexWithout(index, live, e);
      HistoryOfEviction(index, latest, sets, replaced, deleted, evictions, e.key);
      index := Without(index, e.key);
      Kill(e, extra);
      evictions := evictions + 1;
    }

    /** Serve the head of the small queue: a dead one is dropped, one read more than once
        moves to main with its frequency reset, any other is evicted and remembered. */
    method EvictSmall(ghost extra: set<Entry>) returns (r: Eviction)
      requires ValidWith(extra)
      modifies this
      ensures ValidWith(extra)
      ensures r.Nothing? <==> old(small) == []
      ensures r.Nothing? ==> Now() == old(Now()) && smallBytes == old(smallBytes)
      ensures old(small) != [] ==> ServesSmall(old(Now()), r, Now())
      ensures LeavesTrail(r, extra)
    {
      hide QueuesOk, AccountsOk, Indexed, Within, HistoryOk, PushedOrder, PushedSet, Without;
      if small == [] {
        return Nothing;
      }
      var e := small[0];
      SmallHead(small, main, freq, live, extra, nextId);
      if e !in live {
        PopDeadSmall(extra);
        return Dropped(e);
      }
      if freq[e] > 1 {
        Promote(small, main, freq, live, extra, nextId, used, smallBytes, deadBytes);
        freq := freq[e := 0];
        small, main, smallBytes := small[1..], main + [e], smallBytes - Cost(e);
        return Promoted(e);
      }
      EvictSmallHead(e, extra);
      return Evicted(e);
    }

    method EvictSmallHead(e: Entry, ghost extra: set<Entry>)
      requires ValidWith(extra) && small != [] && e == small[0] && e in live && e !in extra
      modifies this`small, this`index, this`live, this`used, this`smallBytes, this`deadBytes, this`evictions,
               this`ghostOrder, this`ghostSet
      ensures ValidWith(extra) && small == old(small)[1..]
      ensures ghostOrder == PushedOrder(old(ghostOrder), old(ghostSet), e.hash, |main|)
      ensures ghostSet == PushedSet(old(ghostOrder), old(ghostSet), e.hash, |main|)
      ensures LeavesTrail(Evicted(e), extra)
    {
      hide QueuesOk, AccountsOk, Indexed, HistoryOk, Within, PushedOrder, PushedSet, Max, Cost, Without;
      IndexWithout(index, live, e);
      Unlink(e, extra);
      PopDeadSmall(extra);
      GhostPush(e.hash, |main|);
    }

    method PopDeadSmall(ghost extra: set<Entry>)
      requires ValidWith(extra) && small != [] && small[0] !in live
      modifies this`small, this`smallBytes, this`deadBytes
      ensures ValidWith(extra) && small == old(small)[1..]
    {
      hide QueuesOk, AccountsOk, Indexed, HistoryOk, Within, Cost, Without;
      PopSmall(small, main, freq, live, extra, nextId, used, smallBytes, deadBytes);
      var e := small[0];
      small, smallBytes, deadBytes := small[1..], smallBytes - Cost(e), deadBytes - Cost(e);
    }

    /** Serve main by its clock: entries still read are decremented and sent to the back until
        one has run out. In closed form, the victim is the entry of lowest level (a dead one
        has level zero), the earliest among equals; those behind it have lost its level, those
        before it one more, and the queue has turned to just after it. */
    method EvictMain(ghost extra: set<Entry>) returns (r: Eviction)
      requires ValidWith(extra)
      modifies this`main, this`freq, this`index, this`live, this`used, this`deadBytes, this`evictions
      ensures ValidWith(extra)
      ensures r.Nothing? <==> old(main) == []
      ensures r.Nothing? ==> Now() == old(Now())
      ensures old(main) != [] ==> ServesMain(old(Now()), r, Now())
      ensures LeavesTrail(r, extra)
    {
      hide QueuesOk, AccountsOk, Indexed, Within, HistoryOk, ClockEvicts, Without;
      if main == [] {
        return Nothing;
      }
      MainIsClocked(small, main, freq, live, extra, nextId);
      ghost var i := TurnMain(extra);
      assert main[0] in old(main);
      r := EvictMainHead(extra);
    }

    method EvictMainHead(ghost extra: set<Entry>) returns (r: Eviction)
      requires ValidWith(extra) && main != [] && main[0] !in extra
      modifies this`main, this`index, this`live, this`used, this`deadBytes, this`evictions
      ensures ValidWith(extra) && main == old(main)[1..]
      ensures r == if old(main)[0] in old(live) then Evicted(old(main)[0]) else Dropped(old(main)[0])
      ensures LeavesTrail(r, extra)
    {
      hide QueuesOk, AccountsOk, Indexed, Within, HistoryOk, Cost, Without;
      var e := main[0];
      r := Dropped(e);
      if e in live {
        r := Evicted(e);
        IndexWithout(index, live, e);
        Unlink(e, extra);
      }
      PopDeadMain(extra);
    }

    /** Turn main until its head has run out. */
    method TurnMain(ghost extra: set<Entry>) returns (ghost i: nat)
      requires ValidWith(extra) && main != []
      modifies this`main, this`freq
      ensures ValidWith(extra) && i < |old(main)| == |main| && main[0] == old(main)[i]
      ensures ClockEvicts(old(main), old(freq), live, i, main[1..], freq)
    {
      hide QueuesOk, AccountsOk, Indexed, Within, HistoryOk, ClockEvicts, Turning, Without;
      ghost var q, f0, rounds := main, freq, 0;
      i := 0;
      MainIsClocked(small, main, freq, live, extra, nextId);
      TurningStarts(q, f0, live);
      TurningHead(q, f0, live, rounds, i, main, freq);
      while main[0] in live && freq[main[0]] > 0
        invariant ValidWith(extra) && Turning(q, f0, live, rounds, i, main, freq)
        invariant i < |q| == |main| && rounds <= FREQ_CAP && main[0] == q[i] && main[0] in freq
        decreases FREQ_CAP - rounds, |q| - i
      {
        var e := main[0];
        RotateMain(small, main, freq, live, extra, nextId, used, smallBytes, deadBytes);
        TurningStep(q, f0, live, rounds, i, main, freq);
        freq := freq[e := freq[e] - 1];
        main := main[1..] + [e];
        ghost var turn := NextTurn(rounds, i, |q|);
        rounds, i := turn.0, turn.1;
        TurningHead(q, f0, live, rounds, i, main, freq);
      }
      TurningEnds(q, f0, live, rounds, i, main, freq);
    }

    method PopDeadMain(ghost extra: set<Entry>)
      requires ValidWith(extra) && main != [] && main[0] !in live
      modifies this`main, this`deadBytes
      ensures ValidWith(extra) && main == old(main)[1..]
    {
      hide QueuesOk, AccountsOk, Indexed, HistoryOk, Within, Cost, Without;
      PopMain(small, main, freq, live, extra, nextId, used, smallBytes, deadBytes);
      main, deadBytes := main[1..], deadBytes - Cost(main[0]);
    }

    /** One turn of the eviction loop: the small queue first while it holds its share, main
        first otherwise, the other one if the first is empty. */
    method EvictStep(ghost extra: set<Entry>) returns (r: Eviction)
      requires ValidWith(extra)
      modifies this
      ensures ValidWith(extra) && LeavesTrail(r, extra)
      ensures r.Nothing? <==> old(small) == [] && old(main) == []
      ensures r.Nothing? ==> Now() == old(Now())
      ensures !r.Nothing? ==> Serves(old(Now()), smallCapacity, r, Now())
    {
      hide QueuesOk, AccountsOk, Indexed, Within, HistoryOk, ServesSmall, ServesMain, Without, TotalCost;
      CountersCount(small, main, live, used, smallBytes, deadBytes);
      if smallBytes >= smallCapacity {
        r := EvictSmall(extra);
        if r.Nothing? {
          r := EvictMain(extra);
        }
      } else {
        r := EvictMain(extra);
        if r.Nothing? {
          r := EvictSmall(extra);
        }
      }
    }

    // ---- the operations ----

    /** Whether an entry can ever be resident: the cost and the capacity if not. */
    method CheckFits(key: Key, value: Bytes) returns (r: Option<(nat, nat)>)
      ensures r.None? <==> |key| + |value| + 128 <= capacity
      ensures r.Some? ==> r.value == (|key| + |value| + 128, capacity)
    {
      var cost := CostOf(key, value);
      if cost > capacity {
        return Some((cost, capacity));
      }
      return None;
    }

    /** The queues once `e` is in the index: never read, live, and its predecessor dead. */
    ghost function Linking(e: Entry): Queues
      reads this
    {
      var others := if e.key in index then live - {index[e.key]} else live;
      Now().(freq := freq[e := 0], live := others + {e})
    }

    /** The bytes that the entry of `key` gives up when it is replaced. */
    ghost function Displaced(key: Key): nat
      reads this
    {
      if key in index then Cost(index[key]) else 0
    }

    /** Put a fresh entry into the index, in place of the entry its key had, which is killed. */
    method Link(key: Key, value: Bytes, hash: nat) returns (e: Entry)
      requires ValidWith({})
      modifies this`index, this`live, this`freq, this`nextId, this`used, this`deadBytes,
               this`latest, this`sets, this`replaced
      ensures e == Entry(old(nextId), key, value, hash) && ValidWith({e})
      ensures index == old(index)[key := e] && latest == old(latest)[key := e]
      ensures sets == old(sets) + 1 && replaced == if key in old(index) then old(replaced) + 1 else old(replaced)
      ensures live == (if key in old(index) then old(live) - {old(index)[key]} else old(live)) + {e}
      ensures freq == old(freq)[e := 0] && used == old(used) - old(Displaced(key))
    {
      hide QueuesOk, AccountsOk, Indexed, Within, HistoryOk, Cost;
      HistoryOfSet(index, latest, sets, replaced, deleted, evictions, Entry(nextId, key, value, hash));
      e := Allocate(key, value, hash);
      IndexReplaced(index, old(live), e);
      latest, sets := latest[key := e], sets + 1;
      if key in index {
        IndexedAt(index, old(live), key);
        var o := index[key];
        index, replaced := index[key := e], replaced + 1;
        Kill(o, {e});
        assert live == old(live) - {o} + {e};
      } else {
        index := index[key := e];
      }
    }

    /** A new allocation: a fresh identity, never read, live, and in no queue. */
    method Allocate(key: Key, value: Bytes, hash: nat) returns (e: Entry)
      requires QueuesOk(small, main, freq, live, {}, nextId)
      requires AccountsOk(small, main, live, used, smallBytes, deadBytes)
      modifies this`live, this`freq, this`nextId
      ensures e == Entry(old(nextId), key, value, hash) && e !in old(live) && live == old(live) + {e}
      ensures freq == old(freq)[e := 0]
      ensures QueuesOk(small, main, freq, live, {e}, nextId)
      ensures AccountsOk(small, main, live, used, smallBytes, deadBytes)
    {
      hide QueuesOk, AccountsOk;
      e := Entry(nextId, key, value, hash);
      Admit(small, main, freq, live, nextId, used, smallBytes, deadBytes, e);
      freq, live, nextId := freq[e := 0], live + {e}, nextId + 1;
    }

    /** Evict until the pending entry `e` fits, or nothing is left: a run of turns, each one
        needed, whose victims are exactly the entries that went. */
    method MakeRoom(e: Entry) returns (ghost run: Run)
      requires ValidWith({e})
      modifies this
      ensures ValidWith({e}) && Evicting(e, Victims(run.steps))
      ensures Fits(run, old(Now()), smallCapacity, old(used), Cost(e), capacity) && run.states[|run.steps|] == Now()
    {
      hide QueuesOk, AccountsOk, Indexed, Within, HistoryOk, Cost, Serves, Turns, Needed, Victims;
      run := NoTurns(Now(), smallCapacity, used, Cost(e), capacity);
      assert index - KeysOf(Victims(run.steps)) == index;
      while used + Cost(e) > capacity
        invariant ValidWith({e}) && Evicting(e, Victims(run.steps))
        invariant |run.states| == |run.steps| + 1 && Turns(run, smallCapacity)
        invariant run.states[0] == old(Now()) && run.states[|run.steps|] == Now()
        invariant Needed(run.steps, old(used), Cost(e), capacity)
        decreases 2 * |small| + |main|
      {
        ghost var was := Victims(run.steps);
        var r := EvictStep({e});
        if r.Nothing? {
          return;
        }
        ServesShrinks(run.states[|run.steps|], smallCapacity, r, Now());
        run := OneMoreTurn(run, smallCapacity, old(used), Cost(e), capacity, r, Now());
        if r.Evicted? {
          assert KeysOf(Victims(run.steps)) == KeysOf(was) + {r.e.key};
          CostsSplit(was, [r.e], {});
          assert TotalCost([r.e]) == Cost(r.e);
        } else {
          assert Victims(run.steps) == was;
        }
      }
    }

    /** The effect of evictions in favour of the pending entry `e`: exactly the victims have
        left, and `e` is not one of them. */
    twostate predicate Evicting(e: Entry, victims: seq<Entry>)
      reads this
    {
      && latest == old(latest) && sets == old(sets) && replaced == old(replaced) && deleted == old(deleted)
      && nextId == old(nextId)
      && index == old(index) - KeysOf(victims)
      && live == old(live) - (set v | v in victims)
      && (forall v | v in victims :: v != e && v in old(live))
      && evictions == old(evictions) + |victims|
      && old(used) == used + TotalCost(victims)
    }

    /** Queue the entry the index already holds: in main if the ghost queue remembers its
        hash, in small otherwise. */
    method Join(e: Entry)
      requires ValidWith({e})
      modifies this`used, this`ghostSet, this`small, this`main, this`smallBytes
      ensures ValidWith({}) && used == old(used) + Cost(e) && Now() == Joined(old(Now()), e)
    {
      hide QueuesOk, AccountsOk, Indexed, Within, HistoryOk, Cost;
      Enqueue(small, main, freq, live, nextId, used, smallBytes, deadBytes, e);
      used := used + Cost(e);
      var hit := GhostTake(e.hash);
      if hit {
        main := main + [e];
      } else {
        small, smallBytes := small + [e], smallBytes + Cost(e);
      }
    }

    /** Drop dead entries eagerly once they hold more than a quarter of the budget. */
    method MaybeCompact()
      requires ValidWith({})
      modifies this`small, this`main, this`smallBytes, this`deadBytes
      ensures Valid()
      ensures Now() == Compacted(old(Now()), capacity)
    {
      hide QueuesOk, AccountsOk, Indexed, Within, HistoryOk, Kept, LiveCost, DeadCost, TotalCost;
      CountersCount(small, main, live, used, smallBytes, deadBytes);
      if deadBytes <= capacity / 4 {
        return;
      }
      CompactKeeps(small, main, freq, live, nextId, used, smallBytes, deadBytes);
      var kept, bytes := CompactQueue(small, live);
      small, smallBytes := kept, bytes;
      kept, bytes := CompactQueue(main, live);
      main, deadBytes := kept, 0;
    }

    /** Insert or replace: the key's old entry dies, a run of turns makes room, the new entry
        joins its queue, and the dead are dropped if they have become too many. The queues
        afterwards are determined by those before. */
    method Set(key: Key, value: Bytes, hash: nat) returns (e: Entry, ghost run: Run)
      requires Valid()
      modifies this
      ensures Valid()
      ensures e == Entry(old(nextId), key, value, hash) && key in index && index[key] == e
      ensures latest == old(latest)[key := e]
      ensures Fits(run, old(Linking(e)), smallCapacity, old(used) - old(Displaced(key)), Cost(e), capacity)
      ensures Now() == Compacted(Joined(run.states[|run.steps|], e), capacity)
      ensures index == old(index)[key := e] - KeysOf(Victims(run.steps))
      ensures evictions == old(evictions) + |Victims(run.steps)| && forall v | v in Victims(run.steps) :: v in old(live)
      ensures sets == old(sets) + 1 && deleted == old(deleted)
      ensures replaced == if key in old(index) then old(replaced) + 1 else old(replaced)
      ensures Cost(e) <= capacity ==> used <= capacity
      ensures Cost(e) > capacity ==> index == map[key := e]
      ensures var victims := Victims(run.steps); victims != [] ==> used + Cost(victims[|victims| - 1]) > capacity
      ensures SetCost(old(index)[key := e].Values) <= capacity ==> run.steps == []
    {
      hide QueuesOk, AccountsOk, Indexed, Within, HistoryOk, Cost, SetCost, KeysOf, Victims, Fits, Compacted, Joined;
      e := Link(key, value, hash);
      LinkedCost(small, main, freq, live, nextId, used, smallBytes, deadBytes, index, e);
      assert forall v | v in live && v != e :: v in old(live);
      run := Fill(e);
    }

    /** Make room for the entry the index already holds, and queue it. */
    method Fill(e: Entry) returns (ghost run: Run)
      requires ValidWith({e})
      modifies this
      ensures Valid() && e.key in index && index[e.key] == e && |run.states| == |run.steps| + 1
      ensures Fits(run, old(Now()), smallCapacity, old(used), Cost(e), capacity)
      ensures Now() == Compacted(Joined(run.states[|run.steps|], e), capacity)
      ensures latest == old(latest) && sets == old(sets) && replaced == old(replaced) && deleted == old(deleted)
      ensures index == old(index) - KeysOf(Victims(run.steps))
      ensures evictions == old(evictions) + |Victims(run.steps)|
      ensures forall v | v in Victims(run.steps) :: v != e && v in old(live)
      ensures Cost(e) <= capacity ==> used <= capacity
      ensures Cost(e) > capacity ==> index == map[e.key := e]
      ensures var victims := Victims(run.steps); victims != [] ==> used + Cost(victims[|victims| - 1]) > capacity
      ensures old(used) + Cost(e) <= capacity ==> run.steps == []
    {
      hide QueuesOk, AccountsOk, Indexed, Within, HistoryOk, Cost, KeysOf, Victims, Compacted, Joined;
      run := MakeRoom(e);
      if Victims(run.steps) != [] {
        LastVictimNeeded(run.steps, old(used), Cost(e), capacity);
      }
      if run.steps != [] {
        FirstTurnNeeded(run.steps, old(used), Cost(e), capacity);
      }
      StillIndexed(small, main, freq, live, nextId, index, e);
      if small == [] && main == [] {
        AloneCosts(small, main, live, used, smallBytes, deadBytes);
      }
      Settle(e);
    }

    method Settle(e: Entry)
      requires ValidWith({e})
      modifies this`used, this`ghostSet, this`small, this`main, this`smallBytes, this`deadBytes
      ensures Valid() && used == old(used) + Cost(e)
      ensures Now() == Compacted(Joined(old(Now()), e), capacity)
    {
      hide QueuesOk, AccountsOk, Indexed, Within, HistoryOk, Cost, Compacted, Joined;
      Join(e);
      MaybeCompact();
    }

    /** Remove `key`, reporting the entry it had. */
    method Del(key: Key) returns (r: Option<Entry>)
      requires Valid()
      modifies this
      ensures Valid()
      ensures r == if key in old(index) then Some(old(index)[key]) else None
      ensures index == Without(old(index), key) && latest == Without(old(latest), key)
      ensures evictions == old(evictions) && sets == old(sets) && replaced == old(replaced) && used <= old(used)
      ensures deleted == if key in old(index) then old(deleted) + 1 else old(deleted)
      ensures key !in old(index) ==> Now() == old(Now())
      ensures key in old(index) ==>
                Now() == Compacted(old(Now()).(live := old(live) - {old(index)[key]}), capacity)
    {
      hide QueuesOk, AccountsOk, Indexed, Within, HistoryOk, Cost, Without, Compacted;
      if key !in index {
        HistoryOfDel(index, latest, sets, replaced, deleted, evictions, key);
        AbsentKey(index, key);
        latest := Without(latest, key);
        return None;
      }
      r := Some(index[key]);
      Unset(key);
      MaybeCompact();
    }

    method Unset(key: Key)
      requires ValidWith({}) && key in index
      modifies this`index, this`latest, this`deleted, this`live, this`used, this`deadBytes
      ensures ValidWith({}) && used <= old(used)
      ensures index == Without(old(index), key) && latest == Without(old(latest), key) && deleted == old(deleted) + 1
      ensures live == old(live) - {old(index)[key]}
    {
      hide QueuesOk, AccountsOk, Indexed, Within, HistoryOk, Cost, Without;
      HistoryOfDel(index, latest, sets, replaced, deleted, evictions, key);
      var e := index[key];
      IndexWithoutKey(index, live, key);
      index, latest, deleted := Without(index, key), Without(latest, key), deleted + 1;
      Kill(e, {});
    }

    /** Look up `key` and count the read, up to the cap. */
    method Get(key: Key) returns (r: Option<Entry>)
      requires Valid()
      modifies this`freq
      ensures Valid()
      ensures r == if key in index then Some(index[key]) else None
      ensures r.Some? ==> r.value in old(freq) && freq == old(freq)[r.value := Touched(old(freq)[r.value])]
      ensures r.None? ==> freq == old(freq)
    {
      hide AccountsOk, Within, HistoryOk;
      if key !in index {
        return None;
      }
      var e := index[key];
      var f := freq[e];
      if f < FREQ_CAP {
        freq := freq[e := f + 1];
      } else {
        assert freq[e := f] == freq;
      }
      return Some(e);
    }

    /** What an eviction step does to the index, the budget and the counter: only a live entry
        that is evicted leaves a trace, and it leaves exactly its own. */
    twostate predicate LeavesTrail(r: Eviction, extra: set<Entry>)
      reads this
    {
      && latest == old(latest) && sets == old(sets) && replaced == old(replaced) && deleted == old(deleted)
      && nextId == old(nextId)
      && if r.Evicted? then
           && r.e in old(live) && r.e !in extra && r.e.key in old(index) && old(index)[r.e.key] == r.e
           && index == Without(old(index), r.e.key) && live == old(live) - {r.e}
           && used == old(used) - Cost(r.e) && evictions == old(evictions) + 1
         else
           index == old(index) && live == old(live) && used == old(used) && evictions == old(evictions)
    }
  }

  lemma MainIsClocked(small: seq<Entry>, main: seq<Entry>, freq: map<Entry, nat>, live: set<Entry>, extra: set<Entry>, nextId: nat)
    requires QueuesOk(small, main, freq, live, extra, nextId)
    ensures Clocked(main, freq) && forall e | e in main :: e !in extra
  {
  }

  method CompactQueue(q: seq<Entry>, live: set<Entry>) returns (kept: seq<Entry>, bytes: nat)
    ensures kept == Kept(q, live) && bytes == LiveCost(q, live)
  {
    var a := new Entry[|q|](i requires 0 <= i < |q| => q[i]);
    assert a[..] == q;
    var w, b := Compact(a, live);
    kept, bytes := a[..w], b;
  }

  lemma LinkedCost(small: seq<Entry>, main: seq<Entry>, freq: map<Entry, nat>, live: set<Entry>, nextId: nat,
                   used: nat, smallBytes: nat, deadBytes: nat, index: map<Key, Entry>, e: Entry)
    requires QueuesOk(small, main, freq, live, {e}, nextId) && Indexed(index, live)
    requires AccountsOk(small, main, live, used, smallBytes, deadBytes)
    ensures SetCost(index.Values) == used + Cost(e)
  {
    UsedIsIndexCost(small, main, freq, live, {e}, nextId, used, smallBytes, deadBytes, index);
    assert e in {e};
    assert e.key in index && index[e.key] == e;
    SetCostWithout(index.Values, e);
  }

  /** The pending entry is in the index; when both queues are empty it is all there is. */
  lemma StillIndexed(small: seq<Entry>, main: seq<Entry>, freq: map<Entry, nat>, live: set<Entry>, nextId: nat,
                     index: map<Key, Entry>, e: Entry)
    requires QueuesOk(small, main, freq, live, {e}, nextId) && Indexed(index, live)
    ensures e.key in index && index[e.key] == e
    ensures small == [] && main == [] ==> index == map[e.key := e]
  {
    assert e in {e};
    if small == [] && main == [] {
      assert forall k | k in index :: index[k] == e && k == e.key;
    }
  }

  lemma AloneCosts(small: seq<Entry>, main: seq<Entry>, live: set<Entry>, used: nat, smallBytes: nat, deadBytes: nat)
    requires AccountsOk(small, main, live, used, smallBytes, deadBytes) && small == [] && main == []
    ensures used == 0
  {
  }

  lemma HistoryOfEviction(index: map<Key, Entry>, latest: map<Key, Entry>, sets: nat, replaced: nat, deleted: nat, evictions: nat,
                          key: Key)
    requires HistoryOk(index, latest, sets, replaced, deleted, evictions) && key in index
    ensures HistoryOk(Without(index, key), latest, sets, replaced, deleted, evictions + 1)
  {
    assert Without(index, key).Keys == index.Keys - {key};
    assert |Without(index, key).Keys| == |index| - 1;
  }

  lemma AbsentKey(m: map<Key, Entry>, k: Key)
    requires k !in m
    ensures Without(m, k) == m
  {
  }

  lemma HistoryOfDel(index: map<Key, Entry>, latest: map<Key, Entry>, sets: nat, replaced: nat, deleted: nat, evictions: nat, key: Key)
    requires HistoryOk(index, latest, sets, replaced, deleted, evictions)
    ensures HistoryOk(Without(index, key), Without(latest, key), sets, replaced, if key in index then deleted + 1 else deleted, evictions)
  {
    assert Without(index, key).Keys == index.Keys - {key};
    assert |Without(index, key).Keys| == if key in index then |index| - 1 else |index|;
  }

  lemma IndexedAt(index: map<Key, Entry>, live: set<Entry>, key: Key)
    requires Indexed(index, live) && key in index
    ensures index[key].key == key && index[key] in live
  {
  }

  lemma SmallHead(small: seq<Entry>, main: seq<Entry>, freq: map<Entry, nat>, live: set<Entry>, extra: set<Entry>, nextId: nat)
    requires QueuesOk(small, main, freq, live, extra, nextId) && small != []
    ensures small[0] in freq && small[0] !in extra
  {
    assert small[0] in small;
  }
}
