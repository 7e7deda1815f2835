/** Sending a batch to the servers of a cluster and merging what they answer, in whatever
    order the answers arrive. */
module ClusterBatch {
  import opened Base
  import opened Wire
  import opened Server
  import opened Cluster

  /** Why a call failed; `Unanswered` stands for every failure to get a reply from a server. */
  datatype Failure =
    | TooManyItems(n: nat)
    | Undecodable(error: DecodeError)
    | WrongCount(expected: nat, got: nat)
    | ResponseTooLarge(total: nat)
    | Unanswered(reason: nat)

  datatype Answer = Replied(body: Bytes) | Failed(failure: Failure)

  /** Replies in one buffer, and for each item its status, offset and length there. */
  datatype Outcome = Outcome(body: Bytes, index: seq<(byte, nat, nat)>)

  datatype Merged = Complete(outcome: Outcome) | Refused(failure: Failure)

  predicate Reads(body: Bytes, at: (byte, nat, nat), f: Frame) {
    at.1 + at.2 <= |body| && at.0 == f.tag && body[at.1..at.1 + at.2] == f.body
  }

  /** The answer is a batch reply of `n` items. */
  predicate Good(a: Answer, n: nat) {
    a.Replied? && |a.body| < U32_RANGE && DecodeBatch(a.body).Ok? && |DecodeBatch(a.body).value| == n
  }

  /** What is wrong with an answer to `n` items behind `have` merged bytes, in the order the
      client finds out. */
  function FailureOf(a: Answer, n: nat, have: nat): (f: Option<Failure>)
    ensures f.None? <==> Good(a, n) && have + |a.body| < U32_RANGE
  {
    match a
    case Failed(failure) => Some(failure)
    case Replied(body) =>
      if have + |body| >= U32_RANGE then Some(ResponseTooLarge(have + |body|))
      else
        match DecodeBatch(body)
        case Err(error) => Some(Undecodable(error))
        case Ok(fs) => if |fs| == n then None else Some(WrongCount(n, |fs|))
  }

  /** Item `ps[j]` of the outcome reads as `part[j]`. */
  predicate PutAt(body: Bytes, index: seq<(byte, nat, nat)>, part: seq<Frame>, ps: seq<nat>) {
    |ps| == |part| && forall j | 0 <= j < |ps| :: ps[j] < |index| && Reads(body, index[ps[j]], part[j])
  }

  lemma ReadsOn(body: Bytes, more: Bytes, at: (byte, nat, nat), f: Frame)
    requires Reads(body, at, f)
    ensures Reads(body + more, at, f)
  {
    assert (body + more)[at.1..at.1 + at.2] == body[at.1..at.1 + at.2];
  }

  /** Where the body of item `i` stands in an encoded batch. */
  lemma BodyAt(fs: seq<Frame>, i: nat)
    requires i < |fs|
    ensures var off := 4 + |EncodeAll(fs[..i])| + HEADER_LEN;
            && off + |fs[i].body| <= |EncodeBatch(fs)|
            && EncodeBatch(fs)[off..off + |fs[i].body|] == fs[i].body
            && off + |fs[i].body| == 4 + |EncodeAll(fs[..i + 1])|
  {
    hide EncodeAll;
    var a, f, b := fs[..i], fs[i], fs[i + 1..];
    assert fs == a + ([f] + b) && fs[..i + 1] == a + [f];
    EncodeAllSplit(a, [f] + b);
    EncodeAllSplit([f], b);
    EncodeAllSplit(a, [f]);
    EncodeAllOne(f);
    var whole := U32(|fs|) + EncodeAll(a) + Header(f.tag, |f.body|);
    assert EncodeBatch(fs) == whole + (f.body + EncodeAll(b));
  }

  /** One server's reply to all items, indexed in place. */
  method IndexReplies(a: Answer, n: nat) returns (r: Merged)
    requires a.Replied? ==> |a.body| < U32_RANGE
    ensures r.Complete? <==> Good(a, n)
    ensures r.Refused? ==> FailureOf(a, n, 0) == Some(r.failure)
    ensures r.Complete? ==> |r.outcome.index| == n
    ensures r.Complete? ==> forall i: nat | i < n :: Reads(r.outcome.body, r.outcome.index[i], DecodeBatch(a.body).value[i])
  {
    hide DecodeBatch, EncodeAll, EncodeBatch;
    if a.Failed? {
      return Refused(a.failure);
    }
    var decoded := DecodeBatch(a.body);
    if decoded.Err? {
      return Refused(Undecodable(decoded.error));
    }
    var fs := decoded.value;
    if |fs| != n {
      return Refused(WrongCount(n, |fs|));
    }
    var index: seq<(byte, nat, nat)> := [];
    var at := 4;
    EncodeNone(fs);
    for i := 0 to n
      invariant |index| == i && at == 4 + |EncodeAll(fs[..i])|
      invariant forall j: nat | j < i :: Reads(a.body, index[j], fs[j])
    {
      BodyAt(fs, i);
      index := index + [(fs[i].tag, (at + HEADER_LEN) % U32_RANGE, |fs[i].body| % U32_RANGE)];
      at := at + HEADER_LEN + |fs[i].body|;
    }
    r := Complete(Outcome(a.body, index));
  }

  lemma EncodeNone(fs: seq<Frame>)
    ensures EncodeAll(fs[..0]) == []
  {
  }

  /** Copy one server's replies behind what is merged so far and record where each landed. */
  method Merge(merged: Bytes, index: seq<(byte, nat, nat)>, items: seq<nat>, a: Answer)
    returns (merged': Bytes, index': seq<(byte, nat, nat)>, failure: Option<Failure>)
    requires a.Replied? ==> |a.body| < U32_RANGE
    requires (forall j | 0 <= j < |items| :: items[j] < |index|) && forall i, j | 0 <= i < j < |items| :: items[i] != items[j]
    ensures failure == FailureOf(a, |items|, |merged|)
    ensures failure.Some? ==> merged' == merged && index' == index
    ensures failure.None? ==> merged' == merged + Bodies(DecodeBatch(a.body).value) && |index'| == |index|
    ensures failure.None? ==> PutAt(merged', index', DecodeBatch(a.body).value, items)
    ensures failure.None? ==> forall i | 0 <= i < |index| && i !in items :: index'[i] == index[i]
  {
    hide DecodeBatch, Bodies;
    merged', index' := merged, index;
    if a.Failed? {
      return merged, index, Some(a.failure);
    }
    var total := |merged| + |a.body|;
    if total >= U32_RANGE {
      return merged, index, Some(ResponseTooLarge(total));
    }
    var decoded := DecodeBatch(a.body);
    if decoded.Err? {
      return merged, index, Some(Undecodable(decoded.error));
    }
    var fs := decoded.value;
    if |fs| != |items| {
      return merged, index, Some(WrongCount(|items|, |fs|));
    }
    merged', index' := CopyReplies(merged, index, items, fs);
    failure := None;
  }

  method CopyReplies(merged: Bytes, index: seq<(byte, nat, nat)>, items: seq<nat>, fs: seq<Frame>)
    returns (merged': Bytes, index': seq<(byte, nat, nat)>)
    requires |fs| == |items| && |merged| + |EncodeBatch(fs)| < U32_RANGE
    requires (forall j | 0 <= j < |items| :: items[j] < |index|) && forall i, j | 0 <= i < j < |items| :: items[i] != items[j]
    ensures merged' == merged + Bodies(fs) && |index'| == |index| && PutAt(merged', index', fs, items)
    ensures forall i | 0 <= i < |index| && i !in items :: index'[i] == index[i]
  {
    hide Bodies, Reads, EncodeBatch;
    merged', index' := merged, index;
    BodiesNone(fs);
    for k := 0 to |fs|
      invariant merged' == merged + Bodies(fs[..k]) && |index'| == |index|
      invariant PutAt(merged', index', fs[..k], items[..k])
      invariant forall i | 0 <= i < |index| && i !in items :: index'[i] == index[i]
    {
      BodiesNext(fs, k);
      BodiesFit(fs, k);
      PutNext(merged', index', fs[..k], items[..k], items[k], fs[k]);
      assert fs[..k + 1] == fs[..k] + [fs[k]] && items[..k + 1] == items[..k] + [items[k]];
      index' := index'[items[k] := (fs[k].tag, |merged'| % U32_RANGE, |fs[k].body| % U32_RANGE)];
      merged' := merged' + fs[k].body;
    }
    assert fs[..|fs|] == fs && items[..|items|] == items;
  }

  function Bodies(fs: seq<Frame>): Bytes {
    if fs == [] then [] else Bodies(fs[..|fs| - 1]) + fs[|fs| - 1].body
  }

  lemma BodiesNone(fs: seq<Frame>)
    ensures Bodies(fs[..0]) == []
  {
  }

  lemma BodiesNext(fs: seq<Frame>, k: nat)
    requires k < |fs|
    ensures Bodies(fs[..k + 1]) == Bodies(fs[..k]) + fs[k].body
  {
    assert fs[..k + 1][..k] == fs[..k];
  }

  lemma {:induction false} BodiesFit(fs: seq<Frame>, k: nat)
    requires k <= |fs|
    ensures |Bodies(fs[..k])| <= |EncodeBatch(fs)|
    ensures k < |fs| ==> |Bodies(fs[..k])| + |fs[k].body| <= |EncodeBatch(fs)|
    decreases |fs| - k
  {
    hide EncodeBatch, EncodeAll;
    if k == |fs| {
      assert fs[..k] == fs;
      BodiesInside(fs);
      BatchOverhead(fs);
    } else {
      BodiesNext(fs, k);
      BodiesFit(fs, k + 1);
    }
  }

  lemma BatchOverhead(fs: seq<Frame>)
    ensures |EncodeBatch(fs)| == 4 + |EncodeAll(fs)|
  {
  }

  lemma {:induction false} BodiesInside(fs: seq<Frame>)
    ensures |Bodies(fs)| <= |EncodeAll(fs)|
  {
    if fs != [] {
      var n := |fs| - 1;
      BodiesInside(fs[..n]);
      EncodeAllSplit(fs[..n], [fs[n]]);
      EncodeAllOne(fs[n]);
      assert fs == fs[..n] + [fs[n]];
    }
  }

  /** One more reply, at a place of its own, leaves the earlier ones readable. */
  lemma PutNext(body: Bytes, index: seq<(byte, nat, nat)>, part: seq<Frame>, ps: seq<nat>, p: nat, f: Frame)
    requires PutAt(body, index, part, ps) && p < |index| && p !in ps
    ensures PutAt(body + f.body, index[p := (f.tag, |body|, |f.body|)], part + [f], ps + [p])
  {
    var body', index' := body + f.body, index[p := (f.tag, |body|, |f.body|)];
    assert Reads(body', index'[p], f);
    forall j | 0 <= j < |ps|
      ensures Reads(body', index'[ps[j]], part[j])
    {
      assert ps[j] in ps;
      ReadsOn(body, f.body, index[ps[j]], part[j]);
    }
  }

  // ---- the whole call ----

  /** What server `a` answers to its share. */
  function AnswerOf(ask: (nat, Bytes) -> Answer, fs: seq<Frame>, pick: Key -> nat, a: nat): Answer
    requires Routable(fs)
  {
    ask(a, EncodeBatch(Owned(fs, pick, a)))
  }

  /** The servers that were asked, each once, in the order their answers arrive. */
  ghost predicate Arrivals(order: seq<nat>, fs: seq<Frame>, pick: Key -> nat)
    requires Routable(fs)
  {
    && (forall i, j | 0 <= i < j < |order| :: order[i] != order[j])
    && forall a: nat :: a in order <==> Owned(fs, pick, a) != []
  }

  /** The bytes copied once the first `t` answers are in. */
  ghost function Copied(ask: (nat, Bytes) -> Answer, fs: seq<Frame>, pick: Key -> nat, order: seq<nat>, t: nat): nat
    requires Routable(fs) && t <= |order|
  {
    if t == 0 then 0
    else
      var a := AnswerOf(ask, fs, pick, order[t - 1]);
      Copied(ask, fs, pick, order, t - 1) + if a.Replied? && DecodeBatch(a.body).Ok? then |Bodies(DecodeBatch(a.body).value)| else 0
  }

  /** Each of the first `t` answers is complete, and offsets into the merged buffer hold it. */
  ghost predicate AllMerge(ask: (nat, Bytes) -> Answer, fs: seq<Frame>, pick: Key -> nat, order: seq<nat>, t: nat)
    requires Routable(fs) && t <= |order|
  {
    t > 0 ==>
      var a := AnswerOf(ask, fs, pick, order[t - 1]);
      && AllMerge(ask, fs, pick, order, t - 1)
      && Good(a, |Owned(fs, pick, order[t - 1])|)
      && Copied(ask, fs, pick, order, t - 1) + |a.body| < U32_RANGE
  }

  /** The failure is that of the first answer to arrive that could not be merged. */
  ghost predicate FirstFailure(ask: (nat, Bytes) -> Answer, fs: seq<Frame>, pick: Key -> nat, order: seq<nat>, f: Failure)
    requires Routable(fs)
  {
    exists t :: 0 <= t < |order| && FailsAt(ask, fs, pick, order, t, f)
  }

  ghost predicate FailsAt(ask: (nat, Bytes) -> Answer, fs: seq<Frame>, pick: Key -> nat, order: seq<nat>, t: nat, f: Failure)
    requires Routable(fs) && t < |order|
  {
    && AllMerge(ask, fs, pick, order, t)
    && FailureOf(AnswerOf(ask, fs, pick, order[t]), |Owned(fs, pick, order[t])|, Copied(ask, fs, pick, order, t)) == Some(f)
  }

  /** Every place of a batch answered by server `a` reads as that server's answer. */
  ghost predicate Answered(o: Outcome, ask: (nat, Bytes) -> Answer, fs: seq<Frame>, pick: Key -> nat, a: nat)
    requires Routable(fs)
  {
    && Good(AnswerOf(ask, fs, pick, a), |Owned(fs, pick, a)|)
    && PutAt(o.body, o.index, DecodeBatch(AnswerOf(ask, fs, pick, a).body).value, Positions(fs, pick, a))
  }

  /** Item `i` is the first whose key cannot be read. */
  ghost predicate FirstUnroutable(fs: seq<Frame>, i: nat, error: DecodeError) {
    i < |fs| && KeyOf(fs[i]) == Err(error) && forall j | 0 <= j < i :: KeyOf(fs[j]).Ok?
  }

  /** Where every item goes, and whether they go to more than one server. */
  method Route(fs: seq<Frame>, pick: Key -> nat) returns (route: seq<nat>, split: bool, bad: Option<DecodeError>)
    ensures bad.None? <==> Routable(fs)
    ensures bad.Some? ==> exists i :: FirstUnroutable(fs, i, bad.value)
    ensures bad.None? ==> |route| == |fs| && forall i | 0 <= i < |fs| :: route[i] == At(pick, fs[i])
    ensures bad.None? ==> (split <==> exists i | 0 <= i < |fs| :: route[i] != route[0])
  {
    hide KeyOf;
    route, split, bad := [], false, None;
    for i := 0 to |fs|
      invariant Routable(fs[..i]) && |route| == i && forall j | 0 <= j < i :: KeyOf(fs[j]).Ok? && route[j] == At(pick, fs[j])
      invariant split <==> exists j | 0 <= j < i :: route[j] != route[0]
    {
      var key := KeyOf(fs[i]);
      if key.Err? {
        assert FirstUnroutable(fs, i, key.error);
        return [], false, Some(key.error);
      }
      var at := pick(key.value);
      split := split || (route != [] && route[0] != at);
      route := route + [at];
      assert fs[..i + 1] == fs[..i] + [fs[i]];
    }
    assert fs[..|fs|] == fs;
  }

  datatype Group = Group(items: seq<Frame>, places: seq<nat>)

  function GroupOf(fs: seq<Frame>, pick: Key -> nat, a: nat): Option<Group>
    requires Routable(fs)
  {
    if Owned(fs, pick, a) == [] then None else Some(Group(Owned(fs, pick, a), Positions(fs, pick, a)))
  }

  /** Which items each server gets, and where its answers belong. */
  method Spread(fs: seq<Frame>, route: seq<nat>, nodes: nat, pick: Key -> nat) returns (groups: seq<Option<Group>>)
    requires Routable(fs) && |route| == |fs| && forall i | 0 <= i < |fs| :: route[i] == At(pick, fs[i]) < nodes
    ensures |groups| == nodes && forall a: nat | a < nodes :: groups[a] == GroupOf(fs, pick, a)
  {
    hide KeyOf, Owned, Positions;
    groups := seq(nodes, _ => None);
    forall a: nat | a < nodes
      ensures GroupOf(fs[..0], pick, a) == None
    {
      OwnedNone(pick, a);
    }
    for i := 0 to |fs|
      invariant |groups| == nodes && Routable(fs[..i])
      invariant forall a: nat | a < nodes :: groups[a] == GroupOf(fs[..i], pick, a)
    {
      var at := route[i];
      var group := if groups[at].Some? then groups[at].value else Group([], []);
      assert fs[i] in fs && fs[..i + 1] == fs[..i] + [fs[i]];
      assert Routable(fs[..i + 1]);
      forall a: nat | a < nodes
        ensures Owned(fs[..i + 1], pick, a) == if a == at then Owned(fs[..i], pick, a) + [fs[i]] else Owned(fs[..i], pick, a)
        ensures Positions(fs[..i + 1], pick, a) == if a == at then Positions(fs[..i], pick, a) + [i] else Positions(fs[..i], pick, a)
      {
        OwnedLast(fs[..i], fs[i], pick, a);
      }
      groups := groups[at := Some(Group(group.items + [fs[i]], group.places + [i]))];
    }
    assert fs[..|fs|] == fs;
  }

  lemma PositionsAreApart(fs: seq<Frame>, pick: Key -> nat, a: nat)
    requires Routable(fs)
    ensures forall j | 0 <= j < |Positions(fs, pick, a)| ::
              Positions(fs, pick, a)[j] < |fs| && At(pick, fs[Positions(fs, pick, a)[j]]) == a
    ensures forall i, j | 0 <= i < j < |Positions(fs, pick, a)| :: Positions(fs, pick, a)[i] != Positions(fs, pick, a)[j]
  {
    hide KeyOf, Owned, Positions;
    forall j: nat | j < |Positions(fs, pick, a)|
      ensures Positions(fs, pick, a)[j] < |fs| && At(pick, fs[Positions(fs, pick, a)[j]]) == a
      ensures Rank(fs, pick, Positions(fs, pick, a)[j]) == j
    {
      PlaceIsRank(fs, pick, a, j);
    }
  }

  /** Merging another server's answers leaves those of `a` in place. */
  lemma AnsweredStays(o: Outcome, o': Outcome, ask: (nat, Bytes) -> Answer, fs: seq<Frame>, pick: Key -> nat, a: nat, b: nat)
    requires Routable(fs) && a != b && Answered(o, ask, fs, pick, a)
    requires o.body <= o'.body && |o.index| == |o'.index| == |fs|
    requires forall i | 0 <= i < |fs| && i !in Positions(fs, pick, b) :: o'.index[i] == o.index[i]
    ensures Answered(o', ask, fs, pick, a)
  {
    hide KeyOf, Owned, Positions, DecodeBatch, Reads;
    var ps := Positions(fs, pick, a);
    PositionsAreApart(fs, pick, a);
    PositionsAreApart(fs, pick, b);
    var part := DecodeBatch(AnswerOf(ask, fs, pick, a).body).value;
    var more := o'.body[|o.body|..];
    assert o'.body == o.body + more;
    forall j | 0 <= j < |ps|
      ensures Reads(o'.body, o'.index[ps[j]], part[j])
    {
      assert ps[j] !in Positions(fs, pick, b);
      ReadsOn(o.body, more, o.index[ps[j]], part[j]);
    }
  }

  /** Merge the answers in the order they arrive; every server is waited for even once one has
      failed, and the first failure is the outcome. */
  method Collect(fs: seq<Frame>, pick: Key -> nat, groups: seq<Option<Group>>, ask: (nat, Bytes) -> Answer, order: seq<nat>)
    returns (r: Merged)
    requires Routable(fs) && Arrivals(order, fs, pick)
    requires forall a | a in order :: a < |groups| && groups[a] == GroupOf(fs, pick, a)
    requires forall a: nat, b :: ask(a, b).Replied? ==> |ask(a, b).body| < U32_RANGE
    ensures r.Complete? <==> AllMerge(ask, fs, pick, order, |order|)
    ensures r.Refused? ==> FirstFailure(ask, fs, pick, order, r.failure)
    ensures r.Complete? ==> |r.outcome.index| == |fs| && forall a | a in order :: Answered(r.outcome, ask, fs, pick, a)
  {
    hide KeyOf, Owned, Positions, DecodeBatch, Bodies, Answered, EncodeBatch, PutAt, FailureOf;
    var o := Outcome([], seq(|fs|, _ => (OK, 0, 0)));
    var failure: Option<Failure> := None;
    for t := 0 to |order|
      invariant |o.index| == |fs|
      invariant failure.None? <==> AllMerge(ask, fs, pick, order, t)
      invariant failure.Some? ==> FirstFailure(ask, fs, pick, order, failure.value)
      invariant failure.None? ==> |o.body| == Copied(ask, fs, pick, order, t)
      invariant failure.None? ==> forall j | 0 <= j < t :: Answered(o, ask, fs, pick, order[j])
    {
      var a := order[t];
      assert a in order;
      var group := groups[a].value;
      var answer := ask(a, EncodeBatch(group.items));
      PositionsAreApart(fs, pick, a);
      var merged, index, failed := Merge(o.body, o.index, group.places, answer);
      if failed.None? {
        forall j | 0 <= j < t && failure.None?
          ensures Answered(Outcome(merged, index), ask, fs, pick, order[j])
        {
          AnsweredStays(o, Outcome(merged, index), ask, fs, pick, order[j], a);
        }
        AnsweredNow(merged, index, ask, fs, pick, a);
      }
      o := Outcome(merged, index);
      if failure.None? {
        assert failed.Some? ==> FailsAt(ask, fs, pick, order, t, failed.value);
        failure := failed;
      }
    }
    r := if failure.Some? then Refused(failure.value) else Complete(o);
  }

  lemma AnsweredNow(merged: Bytes, index: seq<(byte, nat, nat)>, ask: (nat, Bytes) -> Answer, fs: seq<Frame>, pick: Key -> nat, a: nat)
    requires Routable(fs) && Good(AnswerOf(ask, fs, pick, a), |Positions(fs, pick, a)|)
    requires PutAt(merged, index, DecodeBatch(AnswerOf(ask, fs, pick, a).body).value, Positions(fs, pick, a))
    ensures Answered(Outcome(merged, index), ask, fs, pick, a)
  {
    hide DecodeBatch, Owned, Positions, KeyOf;
  }

  lemma {:induction false} NoneOwned(fs: seq<Frame>, pick: Key -> nat, a: nat)
    requires Routable(fs) && forall f | f in fs :: At(pick, f) != a
    ensures Owned(fs, pick, a) == []
  {
    hide KeyOf;
    if fs != [] {
      var n := |fs| - 1;
      assert fs[n] in fs && forall f | f in fs[..n] :: f in fs;
      NoneOwned(fs[..n], pick, a);
    }
  }

  /** A batch that one server gets whole is that server's share, in place. */
  lemma WholeShare(fs: seq<Frame>, pick: Key -> nat, a: nat)
    requires Routable(fs) && forall f | f in fs :: At(pick, f) == a
    ensures Owned(fs, pick, a) == fs && forall j | 0 <= j < |fs| :: Positions(fs, pick, a)[j] == j
  {
    hide KeyOf, Owned, Positions;
    AllOwned(fs, pick, a);
    forall j: nat | j < |fs|
      ensures Positions(fs, pick, a)[j] == j
    {
      PlaceIsRank(fs, pick, a, j);
      var i := Positions(fs, pick, a)[j];
      assert forall f | f in fs[..i] :: f in fs;
      AllOwned(fs[..i], pick, a);
    }
  }

  lemma FirstTwo(order: seq<nat>)
    requires forall i, j | 0 <= i < j < |order| :: order[i] != order[j]
    ensures (order != [] ==> order[0] in order) && (|order| > 1 ==> order[0] != order[1])
  {
  }

  /** The one server there is answers alone. */
  lemma OnlyArrival(order: seq<nat>, fs: seq<Frame>, pick: Key -> nat, a: nat)
    requires Routable(fs) && fs != [] && (forall f | f in fs :: At(pick, f) == a) && Arrivals(order, fs, pick)
    ensures order == [a]
  {
    hide KeyOf, Owned;
    WholeShare(fs, pick, a);
    assert a in order;
    forall i | 0 <= i < |order|
      ensures order[i] == a
    {
      assert order[i] in order;
      if order[i] != a {
        NoneOwned(fs, pick, order[i]);
      }
    }
    FirstTwo(order);
  }

  /** Send every item to the server of its key and answer in the order of the batch. All
      servers asked have answered completely when the call succeeds, and each place then reads
      as the answer its own server gave to that item, whatever order the answers came in. */
  method Batch(fs: seq<Frame>, nodes: nat, pick: Key -> nat, ask: (nat, Bytes) -> Answer, order: seq<nat>) returns (r: Merged)
    requires (forall f | f in fs :: Sized(f)) && forall k :: pick(k) < nodes
    requires Routable(fs) ==> Arrivals(order, fs, pick)
    requires forall a: nat, b :: ask(a, b).Replied? ==> |ask(a, b).body| < U32_RANGE
    ensures |fs| > MAX_ITEMS ==> r == Refused(TooManyItems(|fs|))
    ensures |fs| <= MAX_ITEMS && !Routable(fs) ==>
              r.Refused? && r.failure.Undecodable? && exists i :: FirstUnroutable(fs, i, r.failure.error)
    ensures |fs| <= MAX_ITEMS && Routable(fs) ==> (r.Complete? <==> AllMerge(ask, fs, pick, order, |order|))
    ensures |fs| <= MAX_ITEMS && Routable(fs) && r.Refused? ==> FirstFailure(ask, fs, pick, order, r.failure)
    ensures r.Complete? ==>
              |r.outcome.index| == |fs| && Routable(fs) && forall a | a in order :: Answered(r.outcome, ask, fs, pick, a)
  {
    hide KeyOf, Owned, Positions, DecodeBatch, Answered, EncodeBatch, PutAt, AllMerge, FirstFailure, FirstUnroutable;
    if |fs| > MAX_ITEMS {
      return Refused(TooManyItems(|fs|));
    }
    var route, split, bad := Route(fs, pick);
    if bad.Some? {
      return Refused(Undecodable(bad.value));
    }
    if route == [] {
      NothingAsked(fs, pick, order, ask);
      return Complete(Outcome([], []));
    }
    if !split {
      r := AskOne(fs, pick, ask, order, route[0]);
      return;
    }
    var groups := Spread(fs, route, nodes, pick);
    forall a | a in order
      ensures a < nodes
    {
      SomeoneRoutes(fs, pick, a, nodes);
    }
    r := Collect(fs, pick, groups, ask, order);
  }

  lemma NothingAsked(fs: seq<Frame>, pick: Key -> nat, order: seq<nat>, ask: (nat, Bytes) -> Answer)
    requires fs == [] && Arrivals(order, fs, pick)
    ensures order == [] && AllMerge(ask, fs, pick, order, 0)
  {
    FirstTwo(order);
  }

  lemma SomeoneRoutes(fs: seq<Frame>, pick: Key -> nat, a: nat, nodes: nat)
    requires Routable(fs) && Owned(fs, pick, a) != [] && forall k :: pick(k) < nodes
    ensures a < nodes
  {
    hide KeyOf, Owned;
    PlaceIsRank(fs, pick, a, 0);
  }

  /** A batch whose keys all land on one server goes there as it was encoded. */
  method AskOne(fs: seq<Frame>, pick: Key -> nat, ask: (nat, Bytes) -> Answer, order: seq<nat>, only: nat) returns (r: Merged)
    requires Routable(fs) && fs != [] && (forall f | f in fs :: At(pick, f) == only) && Arrivals(order, fs, pick)
    requires forall a: nat, b :: ask(a, b).Replied? ==> |ask(a, b).body| < U32_RANGE
    ensures r.Complete? <==> AllMerge(ask, fs, pick, order, |order|)
    ensures r.Refused? ==> FirstFailure(ask, fs, pick, order, r.failure)
    ensures r.Complete? ==> |r.outcome.index| == |fs| && forall a | a in order :: Answered(r.outcome, ask, fs, pick, a)
  {
    hide KeyOf, Owned, Positions, DecodeBatch, EncodeBatch, Reads;
    OnlyArrival(order, fs, pick, only);
    WholeShare(fs, pick, only);
    var answer := ask(only, EncodeBatch(fs));
    r := IndexReplies(answer, |fs|);
    assert AllMerge(ask, fs, pick, order, 0) && Copied(ask, fs, pick, order, 0) == 0;
    assert AllMerge(ask, fs, pick, order, 1) <==> Good(answer, |fs|);
    if r.Complete? {
      assert Answered(r.outcome, ask, fs, pick, only);
    } else {
      assert FailsAt(ask, fs, pick, order, 0, r.failure);
    }
  }

  // ---- one server for all ----

  /** With every server an exact map that agrees with one whole store on its own keys, and
      answering its share in full, each place of a complete outcome reads as the reply the
      whole batch, run in order on that one store, gives to that item, and its server agrees
      with that store on its keys again. */
  lemma ClusterIsOneServer(per: nat, token: Bytes, say: Note -> Bytes, fs: seq<Frame>, pick: Key -> nat,
                           m: Store, at: nat -> Store, ask: (nat, Bytes) -> Answer, o: Outcome, i: nat)
    requires Routable(fs) && |fs| <= MAX_ITEMS && i < |fs| == |o.index|
    requires var a := At(pick, fs[i]);
             && AgreeOn(m, at(a), pick, a) && Answered(o, ask, fs, pick, a)
             && var replies := RunItems(Exact(per, token, say), at(a), Owned(fs, pick, a)).1;
                (forall f | f in replies :: Sized(f)) && AnswerOf(ask, fs, pick, a) == Replied(EncodeBatch(replies))
    ensures Reads(o.body, o.index[i], RunItems(Exact(per, token, say), m, fs).1[i])
    ensures var h, a := Exact(per, token, say), At(pick, fs[i]);
            AgreeOn(RunItems(h, m, fs).0, RunItems(h, at(a), Owned(fs, pick, a)).0, pick, a)
  {
    hide KeyOf, Owned, Positions, RunItems, Exact, AgreeOn, DecodeBatch, EncodeBatch, Reads;
    var a := At(pick, fs[i]);
    var replies := RunItems(Exact(per, token, say), at(a), Owned(fs, pick, a)).1;
    RankIsPlace(fs, pick, i);
    OwnedNoMore(fs, pick, a);
    BatchRoundTrip(replies);
    ShareMeansWhole(per, token, say, fs, pick, m, at(a), a);
  }

  lemma {:induction false} OwnedNoMore(fs: seq<Frame>, pick: Key -> nat, a: nat)
    requires Routable(fs)
    ensures |Owned(fs, pick, a)| <= |fs|
  {
    hide KeyOf;
    if fs != [] {
      assert Routable(fs[..|fs| - 1]);
      OwnedNoMore(fs[..|fs| - 1], pick, a);
    }
  }
}
