/** A batch spread over the servers of a cluster: what each server gets, and why the answers,
    put back in place, are those of one server that got everything. */
module Cluster {
  import opened Base
  import opened Wire
  import opened Server

  /** The key an item is routed by: that of a SET, the whole body of anything else. */
  function KeyOf(f: Frame): Result<Key> {
    if f.tag == SET then
      var kv := SetBody(f.body);
      if kv.Ok? then Ok(kv.value.0) else Err(kv.error)
    else Ok(f.body)
  }

  predicate Routable(fs: seq<Frame>) {
    forall f | f in fs :: KeyOf(f).Ok?
  }

  /** The server an item goes to. */
  function At(pick: Key -> nat, f: Frame): nat
    requires KeyOf(f).Ok?
  {
    pick(KeyOf(f).value)
  }

  /** The items server `a` gets, and the places in the batch they come from. */
  function Owned(fs: seq<Frame>, pick: Key -> nat, a: nat): seq<Frame>
    requires Routable(fs)
  {
    if fs == [] then []
    else
      var n := |fs| - 1;
      Owned(fs[..n], pick, a) + if At(pick, fs[n]) == a then [fs[n]] else []
  }

  function Positions(fs: seq<Frame>, pick: Key -> nat, a: nat): (ps: seq<nat>)
    requires Routable(fs)
    ensures |ps| == |Owned(fs, pick, a)|
  {
    if fs == [] then []
    else
      var n := |fs| - 1;
      Positions(fs[..n], pick, a) + if At(pick, fs[n]) == a then [n] else []
  }

  /** How many earlier items go to the server of item `i`. */
  function Rank(fs: seq<Frame>, pick: Key -> nat, i: nat): nat
    requires Routable(fs) && i < |fs|
  {
    |Owned(fs[..i], pick, At(pick, fs[i]))|
  }

  /** Item `i` is at its rank among the items of its server, and came from place `i`. */
  lemma {:induction false} RankIsPlace(fs: seq<Frame>, pick: Key -> nat, i: nat)
    requires Routable(fs) && i < |fs|
    ensures var a := At(pick, fs[i]);
            && Rank(fs, pick, i) < |Owned(fs, pick, a)| && Owned(fs, pick, a)[Rank(fs, pick, i)] == fs[i]
            && Positions(fs, pick, a)[Rank(fs, pick, i)] == i
    decreases |fs|
  {
    hide KeyOf;
    var n := |fs| - 1;
    if i < n {
      assert Routable(fs[..n]);
      assert fs[..n][..i] == fs[..i];
      RankIsPlace(fs[..n], pick, i);
    }
  }

  /** Every place a server's answer is put belongs to an item of that server, of that rank. */
  lemma {:induction false} PlaceIsRank(fs: seq<Frame>, pick: Key -> nat, a: nat, j: nat)
    requires Routable(fs) && j < |Owned(fs, pick, a)|
    ensures var i := Positions(fs, pick, a)[j];
            i < |fs| && At(pick, fs[i]) == a && Rank(fs, pick, i) == j
    decreases |fs|
  {
    var n := |fs| - 1;
    if j < |Owned(fs[..n], pick, a)| {
      PlaceIsRank(fs[..n], pick, a, j);
      var i := Positions(fs, pick, a)[j];
      assert fs[..n][..i] == fs[..i];
    }
  }

  lemma {:induction false} AllOwned(fs: seq<Frame>, pick: Key -> nat, a: nat)
    requires Routable(fs) && forall f | f in fs :: At(pick, f) == a
    ensures Owned(fs, pick, a) == fs
  {
    hide KeyOf, Owned;
    if fs == [] {
      OwnedNone(pick, a);
    } else {
      var f, init := fs[|fs| - 1], fs[..|fs| - 1];
      assert f in fs && (forall g | g in init :: g in fs) && fs == init + [f];
      AllOwned(init, pick, a);
      OwnedLast(init, f, pick, a);
    }
  }

  // ---- servers that are exact maps ----

  /** The two stores agree on the keys routed to `a`. */
  ghost predicate AgreeOn(m: Store, n: Store, pick: Key -> nat, a: nat) {
    forall k | pick(k) == a :: Lookup(m, k) == Lookup(n, k)
  }

  /** An item is answered from its key alone and changes nothing else. */
  lemma ItemIsLocal(h: Host<Store>, per: nat, token: Bytes, say: Note -> Bytes, m: Store, n: Store, f: Frame, k: Key)
    requires h == Exact(per, token, say)
    requires KeyOf(f).Ok? && Lookup(m, KeyOf(f).value) == Lookup(n, KeyOf(f).value)
    ensures ItemReply(h, m, f).1 == ItemReply(h, n, f).1
    ensures Lookup(m, k) == Lookup(n, k) ==> Lookup(ItemReply(h, m, f).0, k) == Lookup(ItemReply(h, n, f).0, k)
    ensures k != KeyOf(f).value ==> Lookup(ItemReply(h, m, f).0, k) == Lookup(m, k)
  {
    hide SetBody;
  }

  /** One item: on the server it is routed to it is answered as on the whole store, and every
      other server is not concerned. */
  lemma ItemOnServer(per: nat, token: Bytes, say: Note -> Bytes, m: Store, n: Store, f: Frame, pick: Key -> nat, a: nat)
    requires KeyOf(f).Ok? && AgreeOn(m, n, pick, a)
    ensures var h := Exact(per, token, say);
            if At(pick, f) == a then
              ItemReply(h, m, f).1 == ItemReply(h, n, f).1 && AgreeOn(ItemReply(h, m, f).0, ItemReply(h, n, f).0, pick, a)
            else AgreeOn(ItemReply(h, m, f).0, n, pick, a)
  {
    hide KeyOf, ItemReply, Exact;
    var h := Exact(per, token, say);
    if At(pick, f) == a {
      forall k | pick(k) == a
        ensures Lookup(ItemReply(h, m, f).0, k) == Lookup(ItemReply(h, n, f).0, k)
      {
        ItemIsLocal(h, per, token, say, m, n, f, k);
      }
      ItemIsLocal(h, per, token, say, m, n, f, KeyOf(f).value);
    } else {
      forall k | pick(k) == a
        ensures Lookup(ItemReply(h, m, f).0, k) == Lookup(n, k)
      {
        ItemIsLocal(h, per, token, say, m, m, f, k);
      }
    }
  }

  /** A server that agrees with one whole store on its keys, given its share of a batch,
      answers each item as the whole batch run in order on the whole store would, and agrees
      with that store again afterwards. */
  lemma {:induction false} ShareMeansWhole(per: nat, token: Bytes, say: Note -> Bytes, fs: seq<Frame>,
                                          pick: Key -> nat, m: Store, n: Store, a: nat)
    requires Routable(fs) && AgreeOn(m, n, pick, a)
    ensures var h := Exact(per, token, say);
            && AgreeOn(RunItems(h, m, fs).0, RunItems(h, n, Owned(fs, pick, a)).0, pick, a)
            && Placed(RunItems(h, m, fs).1, RunItems(h, n, Owned(fs, pick, a)).1, Positions(fs, pick, a))
    decreases |fs|
  {
    hide KeyOf, ItemReply, Exact, AgreeOn, RunItems, Owned, Positions, Placed;
    var h := Exact(per, token, say);
    if fs == [] {
      OwnedNone(pick, a);
      RunNone(h, m);
      RunNone(h, n);
      NothingPlaced();
    } else {
      var f, init := fs[|fs| - 1], fs[..|fs| - 1];
      assert f in fs && Routable(init);
      ShareMeansWhole(per, token, say, init, pick, m, n, a);
      var share := Owned(init, pick, a);
      ItemOnServer(per, token, say, RunItems(h, m, init).0, RunItems(h, n, share).0, f, pick, a);
      RunLast(h, m, init, f);
      RunLast(h, n, share, f);
      OwnedLast(init, f, pick, a);
      assert fs == init + [f];
      PlacedNext(RunItems(h, m, init).1, RunItems(h, n, share).1, Positions(init, pick, a),
                 ItemReply(h, RunItems(h, m, init).0, f).1);
    }
  }

  lemma NothingPlaced()
    ensures Placed([], [], [])
  {
  }

  lemma PlacedNext(whole: seq<Frame>, part: seq<Frame>, at: seq<nat>, f: Frame)
    requires Placed(whole, part, at)
    ensures Placed(whole + [f], part, at) && Placed(whole + [f], part + [f], at + [|whole|])
  {
  }

  /** The answers `part` stand in `whole` at the places `at`. */
  predicate Placed(whole: seq<Frame>, part: seq<Frame>, at: seq<nat>) {
    |at| == |part| && forall j | 0 <= j < |at| :: at[j] < |whole| && whole[at[j]] == part[j]
  }

  lemma OwnedNone(pick: Key -> nat, a: nat)
    ensures Owned([], pick, a) == [] && Positions([], pick, a) == []
  {
  }

  lemma RunNone(h: Host<Store>, s: Store)
    ensures RunItems(h, s, []) == (s, [])
  {
  }

  lemma RunLast(h: Host<Store>, s: Store, init: seq<Frame>, f: Frame)
    ensures var before := RunItems(h, s, init);
            RunItems(h, s, init + [f]) == (ItemReply(h, before.0, f).0, before.1 + [ItemReply(h, before.0, f).1])
  {
    hide ItemReply;
    assert (init + [f])[..|init|] == init;
  }

  lemma OwnedLast(init: seq<Frame>, f: Frame, pick: Key -> nat, a: nat)
    requires Routable(init + [f]) && Routable(init) && KeyOf(f).Ok?
    ensures Owned(init + [f], pick, a) == if At(pick, f) == a then Owned(init, pick, a) + [f] else Owned(init, pick, a)
    ensures Positions(init + [f], pick, a) ==
            if At(pick, f) == a then Positions(init, pick, a) + [|init|] else Positions(init, pick, a)
  {
    hide KeyOf;
    assert (init + [f])[..|init|] == init;
  }
}
