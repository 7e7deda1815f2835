/** The cuckoo table as a sequence of slots: where a key may live, what a table means,
    and why displacing entries along a path keeps that meaning. */
module Cuckoo {
  import opened Base
  import opened Bits

  const SLOTS := 8
  const MIN_BITS := 6
  const TAG_SHIFT := 0x1_0000_0000_0000
  const TAG_RANGE := 0x1_0000
  const HASH_RANGE := 0x1_0000_0000_0000_0000

  /** A slot word: a tag next to the address of an entry, zero when empty. */
  datatype Slot = Empty | Word(tag: nat, entry: Entry)

  function TagOf(hash: nat): nat {
    (hash / TAG_SHIFT) % TAG_RANGE
  }

  function WordOf(e: Entry): Slot {
    Word(TagOf(e.hash), e)
  }

  function Mask(bits: nat): nat {
    Pow2(bits) - 1
  }

  function Home(hash: nat, bits: nat): (b: nat)
    ensures b < Pow2(bits)
  {
    AndMaskBound(hash, bits);
    And(hash, Mask(bits))
  }

  function Multiplier(tag: nat): (h: nat)
    ensures h % 2 == 1
  {
    Or((tag * 0x9E37_79B9) % HASH_RANGE, 1)
  }

  function Alt(bucket: nat, tag: nat, bits: nat): (b: nat)
    ensures b < Pow2(bits)
  {
    var h := Multiplier(tag);
    AndMaskBound(Xor(bucket, h), bits);
    And(Xor(bucket, h), Mask(bits))
  }

  /** The home bucket is the low bits of a hash, the tag its top sixteen: together with what
      lies between they give the hash back. */
  lemma HashParts(hash: nat, bits: nat)
    requires hash < HASH_RANGE
    ensures Home(hash, bits) == hash % Pow2(bits)
    ensures TagOf(hash) < 65536 && hash == TagOf(hash) * TAG_SHIFT + hash % TAG_SHIFT
  {
    AndMaskIsRemainder(hash, bits);
  }

  /** The alternate of the alternate is the bucket itself. */
  lemma AltInvolution(bucket: nat, tag: nat, bits: nat)
    requires bucket < Pow2(bits)
    ensures Alt(Alt(bucket, tag, bits), tag, bits) == bucket
  {
    var h := Multiplier(tag);
    XorMasked(Xor(bucket, h), h, bits);
    XorCancel(bucket, h);
    AndMaskSmall(bucket, bits);
  }

  /** No bucket is its own alternate: the tag multiplier is forced odd, so the lowest bit flips. */
  lemma AltHasNoFixedPoint(bucket: nat, tag: nat, bits: nat)
    requires bits > 0
    ensures Alt(bucket, tag, bits) != bucket
  {
    var h := Multiplier(tag);
    XorStep(bucket, h);
    MaskStep(Xor(bucket, h), bits);
  }

  function Bucket(p: nat): nat {
    p / SLOTS
  }

  /** Position `p` lies in one of the two buckets `hash` may use. */
  predicate Candidate(p: nat, hash: nat, bits: nat) {
    Bucket(p) == Home(hash, bits) || Bucket(p) == Alt(Home(hash, bits), TagOf(hash), bits)
  }

  predicate InRange(s: seq<Slot>, bits: nat) {
    bits >= MIN_BITS && |s| == SLOTS * Pow2(bits)
  }

  /** Every stored word is the word of its entry, in a bucket its hash allows. */
  ghost predicate Sound(s: seq<Slot>, bits: nat, hasher: Key -> nat) {
    && InRange(s, bits)
    && forall p :: 0 <= p < |s| && s[p].Word? ==> FitsAt(s[p], p, bits, hasher)
  }

  ghost predicate FitsAt(w: Slot, p: nat, bits: nat, hasher: Key -> nat)
    requires w.Word?
  {
    && w == WordOf(w.entry)
    && w.entry.hash == hasher(w.entry.key)
    && Candidate(p, w.entry.hash, bits)
  }

  predicate Holds(w: Slot, key: Key) {
    w.Word? && w.entry.key == key
  }

  /** No key occupies two slots. */
  ghost predicate Unique(s: seq<Slot>) {
    forall p, q | 0 <= p < |s| && 0 <= q < |s| && s[p].Word? && s[q].Word? ::
      s[p].entry.key == s[q].entry.key ==> p == q
  }

  ghost predicate Good(s: seq<Slot>, bits: nat, hasher: Key -> nat) {
    Sound(s, bits, hasher) && Unique(s)
  }

  /** The finite map a table stands for. */
  ghost function View(s: seq<Slot>): (m: map<Key, Entry>)
  {
    map k | k in Keys(s) :: EntryOf(s, k)
  }

  ghost function Keys(s: seq<Slot>): set<Key> {
    set p | 0 <= p < |s| && s[p].Word? :: s[p].entry.key
  }

  ghost function EntryOf(s: seq<Slot>, k: Key): (e: Entry)
    requires k in Keys(s)
    ensures e.key == k && StoredIn(e, s)
  {
    var p :| 0 <= p < |s| && s[p].Word? && s[p].entry.key == k;
    s[p].entry
  }

  /** `m` holds exactly the entries stored in `s`, each under its own key. */
  ghost predicate Means(s: seq<Slot>, m: map<Key, Entry>) {
    && (forall p | 0 <= p < |s| && s[p].Word? :: s[p].entry.key in m && m[s[p].entry.key] == s[p].entry)
    && (forall k | k in m :: m[k].key == k && StoredIn(m[k], s))
  }

  ghost predicate StoredIn(e: Entry, s: seq<Slot>) {
    exists p :: 0 <= p < |s| && s[p].Word? && s[p].entry == e
  }

  lemma ViewMeans(s: seq<Slot>)
    requires Unique(s)
    ensures Means(s, View(s))
  {
  }

  lemma MeansOnlyView(s: seq<Slot>, m: map<Key, Entry>)
    requires Unique(s) && Means(s, m)
    ensures m == View(s)
  {
    var v := View(s);
    forall k | k in m
      ensures k in v && v[k] == m[k]
    {
      assert StoredIn(m[k], s);
    }
    forall k | k in v
      ensures k in m
    {
      assert StoredIn(v[k], s);
    }
  }

  /** A store of a fitting word, or of nothing, keeps every word where it may be. */
  lemma SoundStore(s: seq<Slot>, bits: nat, hasher: Key -> nat, p: nat, w: Slot)
    requires Sound(s, bits, hasher) && p < |s|
    requires w.Word? ==> FitsAt(w, p, bits, hasher)
    ensures Sound(s[p := w], bits, hasher)
  {
    var t := s[p := w];
    forall q | 0 <= q < |t| && t[q].Word?
      ensures FitsAt(t[q], q, bits, hasher)
    {
      assert q != p ==> t[q] == s[q];
    }
  }

  lemma ViewOfClear(s: seq<Slot>, p: nat)
    requires Unique(s) && p < |s| && s[p].Word?
    ensures Unique(s[p := Empty])
    ensures View(s[p := Empty]) == View(s) - {s[p].entry.key}
  {
    var t, m := s[p := Empty], View(s) - {s[p].entry.key};
    forall k | k in m
      ensures m[k].key == k && StoredIn(m[k], t)
    {
      assert StoredIn(m[k], s);
      var q :| 0 <= q < |s| && s[q].Word? && s[q].entry == m[k];
      assert t[q] == s[q];
    }
    assert Means(t, m);
    MeansOnlyView(t, m);
  }

  lemma ViewOfAdd(s: seq<Slot>, p: nat, w: Slot)
    requires Unique(s) && p < |s| && s[p].Empty? && w.Word? && w.entry.key !in View(s)
    ensures Unique(s[p := w])
    ensures View(s[p := w]) == View(s)[w.entry.key := w.entry]
  {
    var t, v := s[p := w], View(s);
    var m := v[w.entry.key := w.entry];
    forall k | k in m
      ensures m[k].key == k && StoredIn(m[k], t)
    {
      if k == w.entry.key {
        assert t[p] == w;
      } else {
        assert StoredIn(v[k], s);
        var q :| 0 <= q < |s| && s[q].Word? && s[q].entry == v[k];
        assert t[q] == s[q];
      }
    }
    assert Unique(t);
    assert Means(t, m);
    MeansOnlyView(t, m);
  }

  lemma ViewOfReplace(s: seq<Slot>, p: nat, w: Slot)
    requires Unique(s) && p < |s| && w.Word? && Holds(s[p], w.entry.key)
    ensures Unique(s[p := w])
    ensures View(s[p := w]) == View(s)[w.entry.key := w.entry]
  {
    var cleared, k := s[p := Empty], w.entry.key;
    assert k in View(s);
    ViewOfClear(s, p);
    ViewOfAdd(cleared, p, w);
    PutNew(View(s), k, w.entry);
    assert cleared[p := w] == s[p := w];
  }

  lemma PutBack<K, V>(m: map<K, V>, k: K, v: V)
    requires k in m && m[k] == v
    ensures (m - {k})[k := v] == m
  {
  }

  lemma PutNew<K, V>(m: map<K, V>, k: K, v: V)
    ensures (m - {k})[k := v] == m[k := v]
  {
  }

  /** Storing the word of a new key in an empty slot adds exactly that key. */
  lemma StoreAdds(s: seq<Slot>, bits: nat, hasher: Key -> nat, p: nat, e: Entry)
    requires Good(s, bits, hasher)
    requires p < |s| && s[p].Empty?
    requires e.key !in View(s) && FitsAt(WordOf(e), p, bits, hasher)
    ensures Good(s[p := WordOf(e)], bits, hasher)
    ensures View(s[p := WordOf(e)]) == View(s)[e.key := e]
  {
    ViewOfAdd(s, p, WordOf(e));
    SoundStore(s, bits, hasher, p, WordOf(e));
  }

  /** Overwriting a key's slot with its new word replaces exactly that key. */
  lemma StoreReplaces(s: seq<Slot>, bits: nat, hasher: Key -> nat, p: nat, e: Entry)
    requires Good(s, bits, hasher)
    requires p < |s| && Holds(s[p], e.key)
    requires e.hash == hasher(e.key)
    ensures Good(s[p := WordOf(e)], bits, hasher)
    ensures View(s[p := WordOf(e)]) == View(s)[e.key := e]
  {
    assert FitsAt(s[p], p, bits, hasher);
    SoundStore(s, bits, hasher, p, WordOf(e));
    ViewOfReplace(s, p, WordOf(e));
  }

  /** Clearing a slot removes exactly the key it held. */
  lemma ClearRemoves(s: seq<Slot>, bits: nat, hasher: Key -> nat, p: nat)
    requires Good(s, bits, hasher)
    requires p < |s| && s[p].Word?
    ensures Good(s[p := Empty], bits, hasher)
    ensures View(s[p := Empty]) == View(s) - {s[p].entry.key}
  {
    ViewOfClear(s, p);
    SoundStore(s, bits, hasher, p, Empty);
  }

  /** Both candidate buckets of an entry are reachable from either one by `Alt`. */
  lemma AltStaysCandidate(w: Slot, src: nat, dst: nat, bits: nat, hasher: Key -> nat)
    requires w.Word? && FitsAt(w, src, bits, hasher)
    requires Bucket(dst) == Alt(Bucket(src), w.tag, bits)
    ensures FitsAt(w, dst, bits, hasher)
  {
    AltInvolution(Home(w.entry.hash, bits), TagOf(w.entry.hash), bits);
  }

  /** Moving a word to an empty slot of its alternate bucket changes no meaning. */
  lemma MoveKeepsView(s: seq<Slot>, bits: nat, hasher: Key -> nat, src: nat, dst: nat)
    requires Good(s, bits, hasher)
    requires src < |s| && dst < |s| && s[src].Word? && s[dst].Empty?
    requires Bucket(dst) == Alt(Bucket(src), s[src].tag, bits)
    ensures Good(s[dst := s[src]][src := Empty], bits, hasher)
    ensures View(s[dst := s[src]][src := Empty]) == View(s)
  {
    var w := s[src];
    assert FitsAt(w, src, bits, hasher);
    AltStaysCandidate(w, src, dst, bits, hasher);
    SoundStore(s, bits, hasher, dst, w);
    SoundStore(s[dst := w], bits, hasher, src, Empty);
    ViewOfMove(s, src, dst);
  }

  lemma ViewOfMove(s: seq<Slot>, src: nat, dst: nat)
    requires Unique(s) && src < |s| && dst < |s| && s[src].Word? && s[dst].Empty?
    ensures Unique(s[dst := s[src]][src := Empty])
    ensures View(s[dst := s[src]][src := Empty]) == View(s)
  {
    var w, cleared := s[src], s[src := Empty];
    assert w.entry.key in View(s) && View(s)[w.entry.key] == w.entry;
    ViewOfClear(s, src);
    ViewOfAdd(cleared, dst, w);
    PutBack(View(s), w.entry.key, w.entry);
    assert cleared[dst := w] == s[dst := w][src := Empty];
  }

  /** A displacement path: every slot on it is full and visited once, each entry's other
      bucket is where the next slot lies, and the last one leads to the empty slot `dest`. */
  ghost predicate PathOk(s: seq<Slot>, bits: nat, path: seq<nat>, dest: nat) {
    dest < |s| && s[dest].Empty? && Walk(s, bits, path, Bucket(dest))
  }

  /** Full slots visited once each, every entry leading to the bucket of the next slot, and
      the last one to bucket `b`. */
  ghost predicate Walk(s: seq<Slot>, bits: nat, path: seq<nat>, b: nat) {
    && (forall j | 0 <= j < |path| :: path[j] < |s| && s[path[j]].Word?)
    && (forall i, j | 0 <= i < j < |path| :: path[i] != path[j])
    && (forall j | 0 <= j < |path| :: HopOk(s, bits, path, b, j))
  }

  ghost predicate HopOk(s: seq<Slot>, bits: nat, path: seq<nat>, b: nat, j: nat)
    requires j < |path| && path[j] < |s| && s[path[j]].Word?
  {
    Alt(Bucket(path[j]), s[path[j]].tag, bits) == if j + 1 < |path| then Bucket(path[j + 1]) else b
  }

  /** A walk standing at the bucket of `p` goes on through `p` to the other bucket of its entry. */
  lemma WalkExtends(s: seq<Slot>, bits: nat, path: seq<nat>, p: nat)
    requires Walk(s, bits, path, Bucket(p)) && p < |s| && s[p].Word? && p !in path
    ensures Walk(s, bits, path + [p], Alt(Bucket(p), s[p].tag, bits))
  {
    var longer := path + [p];
    forall j | 0 <= j < |longer|
      ensures longer[j] < |s| && s[longer[j]].Word? && HopOk(s, bits, longer, Alt(Bucket(p), s[p].tag, bits), j)
    {
      if j < |path| {
        assert HopOk(s, bits, path, Bucket(p), j);
      }
    }
  }

  /** Where the new word goes once the whole path has been shifted. */
  function Target(todo: seq<nat>, hole: nat): nat {
    if todo == [] then hole else todo[0]
  }

  /** A table in the middle of a displacement. Ignoring whatever `hole` still shows, the
      table is good and means `m`; `hole` shows nothing or a copy of a current entry; and
      `todo` is the part of the path still to be shifted towards `hole`. */
  ghost predicate Displacing(t: seq<Slot>, bits: nat, hasher: Key -> nat, todo: seq<nat>, hole: nat, m: map<Key, Entry>) {
    && hole < |t|
    && Good(t[hole := Empty], bits, hasher)
    && View(t[hole := Empty]) == m
    && (t[hole].Word? ==> t[hole].entry.key in m && m[t[hole].entry.key] == t[hole].entry)
    && PathOk(t[hole := Empty], bits, todo, hole)
  }

  /** One copy of the backward walk: the entry at the end of the path moves into the hole,
      and the slot it came from becomes the hole. */
  lemma HopKeepsDisplacing(t: seq<Slot>, bits: nat, hasher: Key -> nat, todo: seq<nat>, hole: nat, m: map<Key, Entry>)
    requires Displacing(t, bits, hasher, todo, hole, m) && todo != []
    ensures todo[|todo| - 1] < |t| && t[todo[|todo| - 1]].Word?
    ensures Displacing(t[hole := t[todo[|todo| - 1]]], bits, hasher, todo[..|todo| - 1], todo[|todo| - 1], m)
    ensures Target(todo[..|todo| - 1], todo[|todo| - 1]) == Target(todo, hole)
  {
    var n, src, h := |todo| - 1, todo[|todo| - 1], t[hole := Empty];
    assert h[src].Word? && src != hole;
    assert HopOk(h, bits, todo, Bucket(hole), n);
    MoveKeepsView(h, bits, hasher, src, hole);
    var t' := t[hole := t[src]];
    var h' := h[hole := h[src]][src := Empty];
    assert t'[src := Empty] == h';
    assert View(h)[h[src].entry.key] == t'[src].entry;
    PathPrefix(h, h', bits, todo, hole);
  }

  lemma PathPrefix(h: seq<Slot>, h': seq<Slot>, bits: nat, todo: seq<nat>, hole: nat)
    requires todo != [] && PathOk(h, bits, todo, hole)
    requires h' == h[hole := h[todo[|todo| - 1]]][todo[|todo| - 1] := Empty]
    ensures PathOk(h', bits, todo[..|todo| - 1], todo[|todo| - 1])
  {
    var n := |todo| - 1;
    var rest := todo[..n];
    forall j | 0 <= j < n
      ensures rest[j] < |h'| && h'[rest[j]].Word? && HopOk(h', bits, rest, Bucket(todo[n]), j)
    {
      assert rest[j] != todo[n] && rest[j] != hole;
      assert HopOk(h, bits, todo, Bucket(hole), j);
      assert h'[rest[j]] == h[rest[j]];
    }
  }

  /** A path found in a good table is a displacement that has not started. */
  lemma DisplacementStarts(s: seq<Slot>, bits: nat, hasher: Key -> nat, path: seq<nat>, dest: nat)
    requires Good(s, bits, hasher) && PathOk(s, bits, path, dest)
    ensures Displacing(s, bits, hasher, path, dest, View(s))
  {
    assert s[dest := Empty] == s;
  }

  /** When the path is used up, the new word lands in the hole and only adds its key. */
  lemma DisplacementEnds(t: seq<Slot>, bits: nat, hasher: Key -> nat, hole: nat, m: map<Key, Entry>, e: Entry)
    requires Displacing(t, bits, hasher, [], hole, m)
    requires e.key !in m && FitsAt(WordOf(e), hole, bits, hasher)
    ensures Good(t[hole := WordOf(e)], bits, hasher)
    ensures View(t[hole := WordOf(e)]) == m[e.key := e]
  {
    var h := t[hole := Empty];
    StoreAdds(h, bits, hasher, hole, e);
    assert h[hole := WordOf(e)] == t[hole := WordOf(e)];
  }

  /** The whole backward application of a path, as one function of the table: each slot
      takes what the slot before it held, and the first takes the new word. */
  function Applied(t: seq<Slot>, todo: seq<nat>, hole: nat, w: Slot): seq<Slot>
    requires hole < |t| && forall j | 0 <= j < |todo| :: todo[j] < |t|
    decreases |todo|
  {
    if todo == [] then t[hole := w]
    else
      var n := |todo| - 1;
      Applied(t[hole := t[todo[n]]], todo[..n], todo[n], w)
  }

  /** For every good table and every path without repetition, shifting the path backwards
      and storing the new word keeps every resident entry in one of its own two buckets,
      exactly once, and adds exactly the new key. */
  lemma {:induction false} PathApplication(t: seq<Slot>, bits: nat, hasher: Key -> nat, todo: seq<nat>, hole: nat,
                                           m: map<Key, Entry>, e: Entry)
    requires Displacing(t, bits, hasher, todo, hole, m)
    requires e.key !in m && e.hash == hasher(e.key) && Candidate(Target(todo, hole), e.hash, bits)
    ensures Good(Applied(t, todo, hole, WordOf(e)), bits, hasher)
    ensures View(Applied(t, todo, hole, WordOf(e))) == m[e.key := e]
    decreases |todo|
  {
    if todo == [] {
      DisplacementEnds(t, bits, hasher, hole, m, e);
    } else {
      var n := |todo| - 1;
      HopKeepsDisplacing(t, bits, hasher, todo, hole, m);
      PathApplication(t[hole := t[todo[n]]], bits, hasher, todo[..n], todo[n], m, e);
    }
  }

  /** One table, whatever its size, cannot hold seventeen keys that share a hash: they all
      compete for the same sixteen slots. An insert of the seventeenth therefore grows the
      table for ever, and the operations below are stated for a bounded number of attempts. */
  lemma AtMostSixteenPerHash(s: seq<Slot>, bits: nat, hasher: Key -> nat, hash: nat, keys: set<Key>)
    requires Good(s, bits, hasher)
    requires forall k | k in keys :: k in View(s) && hasher(k) == hash
    ensures |keys| <= 2 * SLOTS
  {
    var spots := BucketSlots(Home(hash, bits)) + BucketSlots(Alt(Home(hash, bits), TagOf(hash), bits));
    var at := map k | k in keys :: PositionOf(s, k);
    forall k | k in keys
      ensures at[k] in spots
    {
      assert FitsAt(s[at[k]], at[k], bits, hasher);
      InItsBucket(at[k]);
    }
    InjectionBound(keys, spots, at);
  }

  ghost function BucketSlots(b: nat): (r: set<nat>)
    ensures |r| == SLOTS
  {
    var c := b * SLOTS;
    {c, c + 1, c + 2, c + 3, c + 4, c + 5, c + 6, c + 7}
  }

  lemma InItsBucket(p: nat)
    ensures p in BucketSlots(Bucket(p))
  {
  }

  ghost function PositionOf(s: seq<Slot>, k: Key): (p: nat)
    requires Unique(s) && k in View(s)
    ensures p < |s| && Holds(s[p], k)
  {
    assert StoredIn(View(s)[k], s);
    var p :| 0 <= p < |s| && s[p].Word? && s[p].entry == View(s)[k];
    p
  }

  lemma {:induction false} InjectionBound<A, B>(xs: set<A>, ys: set<B>, f: map<A, B>)
    requires forall x | x in xs :: x in f && f[x] in ys
    requires forall x, x' | x in xs && x' in xs && f[x] == f[x'] :: x == x'
    ensures |xs| <= |ys|
  {
    if xs != {} {
      var x :| x in xs;
      InjectionBound(xs - {x}, ys - {f[x]}, f);
    }
  }
}
