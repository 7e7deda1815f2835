/** Serving requests from a cache. The cache is any state with a lookup, a store and a
    delete; evictions, read counts and everything else it does are part of its state. */
module Server {
  import opened Base
  import opened Wire

  const MAX_RESPONSE := MAX_FRAME
  const MAX_AUTH_FRAME := 0x1000

  /** What the text of a refusal is about; its wording is not part of the protocol. */
  datatype Note =
    | NoRoom(cost: nat, capacity: nat)
    | Malformed(error: DecodeError)
    | NotInBatch(op: byte)
    | UnknownOp(op: byte)
    | ResponseTooLong(len: nat)
    | AuthRequired
    | FrameTooLong(len: nat)

  /** A cache of state `S`, the byte budget of one shard, and the server's settings. */
  datatype Host<!S> = Host(
    get: (S, Key) -> (S, Option<Bytes>),
    put: (S, Key, Bytes) -> S,
    del: (S, Key) -> (S, bool),
    per: nat,
    token: Bytes,
    say: Note -> Bytes)

  function Looked(v: Option<Bytes>): Frame {
    if v.Some? then Frame(OK, v.value) else Frame(NOT_FOUND, [])
  }

  function Deleted(hit: bool): Frame {
    Frame(if hit then OK else NOT_FOUND, [])
  }

  /** Storing one entry, refused when it could never fit. */
  function StoreOne<S>(h: Host<S>, s: S, e: (Key, Bytes)): (S, Frame) {
    if FitsIn(e, h.per) then (h.put(s, e.0, e.1), Frame(OK, []))
    else (s, Frame(TOO_LARGE, h.say(NoRoom(CostOf(e.0, e.1), h.per))))
  }

  /** One item of a batch, executed on its own. */
  function ItemReply<S>(h: Host<S>, s: S, f: Frame): (S, Frame) {
    if f.tag == GET then
      var (s', v) := h.get(s, f.body); (s', Looked(v))
    else if f.tag == SET then
      var kv := SetBody(f.body);
      if kv.Ok? then StoreOne(h, s, kv.value) else (s, Frame(BAD_REQUEST, h.say(Malformed(kv.error))))
    else if f.tag == DEL then
      var (s', hit) := h.del(s, f.body); (s', Deleted(hit))
    else (s, Frame(UNKNOWN_OP, h.say(NotInBatch(f.tag))))
  }

  /** A list of items executed one by one, in order. */
  function RunItems<S>(h: Host<S>, s: S, fs: seq<Frame>): (r: (S, seq<Frame>))
    ensures |r.1| == |fs|
  {
    if fs == [] then (s, [])
    else
      var (s1, rs) := RunItems(h, s, fs[..|fs| - 1]);
      var (s2, r) := ItemReply(h, s1, fs[|fs| - 1]);
      (s2, rs + [r])
  }

  lemma {:induction false} RunSplits<S>(h: Host<S>, s: S, a: seq<Frame>, b: seq<Frame>)
    ensures RunItems(h, s, a + b).0 == RunItems(h, RunItems(h, s, a).0, b).0
    ensures RunItems(h, s, a + b).1 == RunItems(h, s, a).1 + RunItems(h, RunItems(h, s, a).0, b).1
    decreases |b|
  {
    if b == [] {
      assert a + b == a;
    } else {
      var n := |b| - 1;
      RunSplits(h, s, a, b[..n]);
      assert (a + b)[..|a + b| - 1] == a + b[..n] && (a + b)[|a + b| - 1] == b[n];
    }
  }

  /** A whole batch: the envelope is checked before anything runs, and a response over the
      limit is replaced as a whole while the cache keeps every effect. */
  function BatchReply<S>(h: Host<S>, s: S, body: Bytes): (S, Frame) {
    var items := DecodeBatch(body);
    if items.Err? then (s, Frame(BAD_REQUEST, h.say(Malformed(items.error))))
    else
      var (s', rs) := RunItems(h, s, items.value);
      var b := EncodeBatch(rs);
      (s', if |b| > MAX_RESPONSE then Frame(TOO_LARGE, h.say(ResponseTooLong(|b|))) else Frame(OK, b))
  }

  /** One request, answered. */
  function Dispatched<S>(h: Host<S>, s: S, f: Frame): (S, Frame) {
    if f.tag == GET then
      var (s', v) := h.get(s, f.body);
      (s', if v.Some? && |v.value| > MAX_RESPONSE then Frame(TOO_LARGE, h.say(ResponseTooLong(|v.value|))) else Looked(v))
    else if f.tag == SET then
      var kv := SetBody(f.body);
      if kv.Ok? then StoreOne(h, s, kv.value) else (s, Frame(BAD_REQUEST, h.say(Malformed(kv.error))))
    else if f.tag == DEL then
      var (s', hit) := h.del(s, f.body); (s', Deleted(hit))
    else if f.tag == BATCH then BatchReply(h, s, f.body)
    else if f.tag == AUTH || f.tag == PING then (s, Frame(OK, []))
    else (s, Frame(UNKNOWN_OP, h.say(UnknownOp(f.tag))))
  }

  function RunAlone<S>(h: Host<S>, s: S, fs: seq<Frame>): (S, seq<Frame>) {
    if fs == [] then (s, [])
    else
      var (s1, rs) := RunAlone(h, s, fs[..|fs| - 1]);
      var (s2, r) := Dispatched(h, s1, fs[|fs| - 1]);
      (s2, rs + [r])
  }

  lemma {:induction false} ReplyWithinWhole(rs: seq<Frame>, i: nat)
    requires i < |rs|
    ensures |rs[i].body| <= |EncodeAll(rs)|
  {
    if i > 0 {
      ReplyWithinWhole(rs[1..], i - 1);
    }
  }

  /** A batch of gets, sets and deletes whose response fits answers every item exactly as the
      same requests sent on their own, and leaves the same cache. */
  lemma {:induction false} BatchMeansItemByItem<S>(h: Host<S>, s: S, fs: seq<Frame>)
    requires forall f | f in fs :: f.tag == GET || f.tag == SET || f.tag == DEL
    requires |EncodeAll(RunItems(h, s, fs).1)| <= MAX_RESPONSE
    ensures RunAlone(h, s, fs) == RunItems(h, s, fs)
  {
    if fs != [] {
      var n := |fs| - 1;
      var rs, all := RunItems(h, s, fs[..n]).1, RunItems(h, s, fs).1;
      EncodeAllSplit(rs, all[n..]);
      assert rs + all[n..] == all;
      assert forall f | f in fs[..n] :: f in fs;
      BatchMeansItemByItem(h, s, fs[..n]);
      ReplyWithinWhole(all, n);
      assert fs[n] in fs;
    }
  }

  /** Whether or not the response fits, a batch leaves the cache its items leave on their own. */
  lemma {:induction false} BatchLeavesSameCache<S>(h: Host<S>, s: S, fs: seq<Frame>)
    requires forall f | f in fs :: f.tag == GET || f.tag == SET || f.tag == DEL
    ensures RunAlone(h, s, fs).0 == RunItems(h, s, fs).0
  {
    if fs != [] {
      var n := |fs| - 1;
      assert forall f | f in fs[..n] :: f in fs;
      BatchLeavesSameCache(h, s, fs[..n]);
      assert fs[n] in fs;
    }
  }

  // ---- a cache that is an exact map ----

  type Store = map<Key, Bytes>

  function Lookup(m: Store, k: Key): Option<Bytes> {
    if k in m then Some(m[k]) else None
  }

  /** A server that keeps what it is told until it is told otherwise. */
  function Exact(per: nat, token: Bytes, say: Note -> Bytes): Host<Store> {
    Host((m: Store, k: Key) => (m, Lookup(m, k)),
         (m: Store, k: Key, v: Bytes) => m[k := v],
         (m: Store, k: Key) => (m - {k}, k in m),
         per, token, say)
  }
}
