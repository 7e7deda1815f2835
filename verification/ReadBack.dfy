/** What a client may rely on from a server that keeps what it is told: a lookup answers with
    the last value written under its key, and with nothing once it is deleted. */
module ReadBack {
  import opened Base
  import opened Wire
  import opened Server

  /** The value the items leave under `k`, read off the items alone: the last one to touch `k`
      decides, and a set too large for a shard does not touch it. */
  function LastWrite(fs: seq<Frame>, k: Key, per: nat): Option<Bytes> {
    if fs == [] then None
    else
      var (rest, f) := (fs[..|fs| - 1], fs[|fs| - 1]);
      if f.tag == DEL && f.body == k then None
      else if f.tag == SET then
        match SetBody(f.body)
        case Ok((key, v)) => if key == k && |k| + |v| + 128 <= per then Some(v) else LastWrite(rest, k, per)
        case Err(_) => LastWrite(rest, k, per)
      else LastWrite(rest, k, per)
  }

  /** The map a run of items leaves is the last write of every key. */
  lemma {:induction false} RunKeepsLastWrites(fs: seq<Frame>, k: Key, per: nat, token: Bytes, say: Note -> Bytes)
    ensures Lookup(RunItems(Exact(per, token, say), map[], fs).0, k) == LastWrite(fs, k, per)
  {
    hide SetBody;
    if fs != [] {
      RunKeepsLastWrites(fs[..|fs| - 1], k, per, token, say);
    }
  }

  lemma {:induction false} ReplyAt<S>(h: Host<S>, s: S, fs: seq<Frame>, i: nat)
    requires i < |fs|
    ensures RunItems(h, s, fs).1[i] == ItemReply(h, RunItems(h, s, fs[..i]).0, fs[i]).1
  {
    hide ItemReply;
    var n := |fs| - 1;
    if i < n {
      ReplyAt(h, s, fs[..n], i);
      assert fs[..n][..i] == fs[..i];
    }
  }

  /** Every reply, from the items alone: a lookup carries the last write of its key byte for
      byte, a delete says whether there was one, a set whether it was taken. */
  lemma RepliesReadLastWrites(fs: seq<Frame>, i: nat, per: nat, token: Bytes, say: Note -> Bytes)
    requires i < |fs|
    ensures var (f, r) := (fs[i], RunItems(Exact(per, token, say), map[], fs).1[i]);
            var last := LastWrite(fs[..i], f.body, per);
            && (f.tag == GET ==> r == if last.Some? then Frame(OK, last.value) else Frame(NOT_FOUND, []))
            && (f.tag == DEL ==> r == Frame(if last.Some? then OK else NOT_FOUND, []))
            && (f.tag == SET && SetBody(f.body).Ok? ==>
                  var (k, v) := SetBody(f.body).value;
                  if |k| + |v| + 128 <= per then r == Frame(OK, []) else r.tag == TOO_LARGE)
            && (f.tag == SET && SetBody(f.body).Err? ==> r.tag == BAD_REQUEST)
  {
    hide SetBody;
    ReplyAt(Exact(per, token, say), map[], fs, i);
    RunKeepsLastWrites(fs[..i], fs[i].body, per, token, say);
  }

  /** Sets and lookups sent on their own: what is set is read back byte for byte, other keys
      answer as before, and after a delete there is nothing. */
  lemma SetThenGet(m: Store, k: Key, v: Bytes, per: nat, token: Bytes, say: Note -> Bytes)
    requires |k| < U32_RANGE && |k| + |v| + 128 <= per
    ensures var h := Exact(per, token, say);
            var (m1, r) := Dispatched(h, m, Frame(SET, EncodeSet(k, v)));
            && r == Frame(OK, []) && (|v| <= MAX_RESPONSE ==> Dispatched(h, m1, Frame(GET, k)) == (m1, Frame(OK, v)))
            && (|v| > MAX_RESPONSE ==> Dispatched(h, m1, Frame(GET, k)).1.tag == TOO_LARGE)
            && (forall k' | k' != k :: Dispatched(h, m1, Frame(GET, k')).1 == Dispatched(h, m, Frame(GET, k')).1)
            && var (m2, gone) := Dispatched(h, m1, Frame(DEL, k));
               && gone == Frame(OK, [])
               && Dispatched(h, m2, Frame(GET, k)) == (m2, Frame(NOT_FOUND, []))
               && Dispatched(h, m2, Frame(DEL, k)) == (m2, Frame(NOT_FOUND, []))
  {
    hide EncodeSet, SetBody;
    SetRoundTrip(k, v);
    assert m[k := v] - {k} - {k} == m[k := v] - {k};
  }

  /** A set that could never fit is refused and changes nothing. */
  lemma LargeSetIsRefused(m: Store, k: Key, v: Bytes, per: nat, token: Bytes, say: Note -> Bytes)
    requires |k| < U32_RANGE && |k| + |v| + 128 > per
    ensures Dispatched(Exact(per, token, say), m, Frame(SET, EncodeSet(k, v)))
         == (m, Frame(TOO_LARGE, say(NoRoom(|k| + |v| + 128, per))))
  {
    hide EncodeSet, SetBody;
    SetRoundTrip(k, v);
  }
}
