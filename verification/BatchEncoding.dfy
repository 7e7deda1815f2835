/** Building a batch body in one buffer, and walking a validated one. */
module BatchEncoding {
  import opened Base
  import opened Wire

  function Prepend(done: seq<Frame>, r: Result<seq<Frame>>): Result<seq<Frame>> {
    if r.Err? then r else Ok(done + r.value)
  }

  lemma ItemsStep(rest: Bytes, n: nat)
    requires n > 0
    ensures |rest| < HEADER_LEN ==> Items(rest, n) == Err(Truncated(HEADER_LEN - |rest|))
    ensures |rest| >= HEADER_LEN > |rest| - HeaderLen(rest) ==>
              Items(rest, n) == Err(Truncated(HeaderLen(rest) - |rest[HEADER_LEN..]|))
    ensures |rest| >= HEADER_LEN && |rest| >= HEADER_LEN + HeaderLen(rest) ==>
              Items(rest, n) == Prepend([Frame(rest[0], rest[HEADER_LEN..][..HeaderLen(rest)])],
                                        Items(rest[HEADER_LEN..][HeaderLen(rest)..], n - 1))
  {
    if |rest| >= HEADER_LEN && |rest| >= HEADER_LEN + HeaderLen(rest) {
      var len := HeaderLen(rest);
      assert rest[HEADER_LEN..][len..] == rest[HEADER_LEN + len..];
      assert rest[HEADER_LEN..][..len] == rest[HEADER_LEN..HEADER_LEN + len];
    }
  }

  lemma ItemsEnd(rest: Bytes)
    ensures Items(rest, 0) == if rest == [] then Ok([]) else Err(Trailing(|rest|))
  {
  }

  lemma PrependNothing(r: Result<seq<Frame>>)
    ensures Prepend([], r) == r
  {
    if r.Ok? {
      assert [] + r.value == r.value;
    }
  }

  lemma PrependTwice(a: seq<Frame>, b: seq<Frame>, r: Result<seq<Frame>>)
    ensures Prepend(a, Prepend(b, r)) == Prepend(a + b, r)
  {
    if r.Ok? {
      assert a + (b + r.value) == a + b + r.value;
    }
  }

  /** Check every header and length of a batch body once. Accepts exactly the bodies that
      decode, with the decoder's error otherwise. */
  method Validate(body: Bytes) returns (r: Result<nat>)
    ensures r.Ok? <==> DecodeBatch(body).Ok?
    ensures r.Err? ==> r.error == DecodeBatch(body).error
    ensures r.Ok? ==> r.value == |DecodeBatch(body).value| && |body| >= 4
  {
    hide Items, HeaderLen;
    var count := SplitCount(body);
    if count.Err? {
      return Err(count.error);
    }
    var (n, rest) := count.value;
    if n > MAX_ITEMS {
      return Err(TooMany(n));
    }
    ghost var done: seq<Frame> := [];
    PrependNothing(Items(rest, n));
    for i := 0 to n
      invariant Items(count.value.1, n) == Prepend(done, Items(rest, n - i))
    {
      ItemsStep(rest, n - i);
      if |rest| < HEADER_LEN {
        return Err(Truncated(HEADER_LEN - |rest|));
      }
      var len := HeaderLen(rest);
      var tail := rest[HEADER_LEN..];
      if |tail| < len {
        return Err(Truncated(len - |tail|));
      }
      ghost var f := Frame(rest[0], tail[..len]);
      PrependTwice(done, [f], Items(tail[len..], n - i - 1));
      done := done + [f];
      rest := tail[len..];
    }
    ItemsEnd(rest);
    if rest != [] {
      return Err(Trailing(|rest|));
    }
    return Ok(n);
  }

  /** The frames of a validated body, yielded one by one without a further check. */
  class Frames {
    var rest: Bytes
    var left: nat

    ghost predicate Valid()
      reads this
    {
      Items(rest, left).Ok?
    }

    /** The frames still to come. */
    ghost function Todo(): seq<Frame>
      requires Valid()
      reads this
    {
      Items(rest, left).value
    }

    constructor (body: Bytes)
      requires DecodeBatch(body).Ok?
      ensures Valid() && Todo() == DecodeBatch(body).value
    {
      rest := body[4..];
      left := FromU32(body[..4]);
    }

    method Next() returns (f: Option<Frame>)
      requires Valid()
      modifies this
      ensures Valid()
      ensures old(Todo()) == [] ==> f.None? && Todo() == []
      ensures old(Todo()) != [] ==> f == Some(old(Todo())[0]) && Todo() == old(Todo())[1..]
    {
      hide Items, HeaderLen;
      ItemsEnd(rest);
      if left == 0 {
        return None;
      }
      ItemsStep(rest, left);
      left := left - 1;
      var len := HeaderLen(rest);
      var tail := rest[HEADER_LEN..];
      f := Some(Frame(rest[0], tail[..len]));
      rest := tail[len..];
    }
  }

  /** Builds a batch body: items in the order they are added, under a count written last. */
  class BatchEncoder {
    var out: Bytes
    var count: nat
    /** The items added so far. */
    ghost var items: seq<Frame>

    ghost predicate Valid()
      reads this
    {
      out == U32(0) + EncodeAll(items) && count == |items|
    }

    constructor ()
      ensures Valid() && items == []
    {
      out, count, items := U32(0), 0, [];
    }

    method Push(op: byte, body: Bytes)
      requires Valid()
      modifies this
      ensures Valid() && items == old(items) + [Frame(op, body)]
    {
      Appended(items, Frame(op, body));
      out := out + Header(op, |body|);
      count := count + 1;
      out := out + body;
      items := items + [Frame(op, body)];
    }

    method Get(key: Bytes)
      requires Valid()
      modifies this
      ensures Valid() && items == old(items) + [Frame(GET, key)]
    {
      Push(GET, key);
    }

    method Set(key: Bytes, value: Bytes)
      requires Valid()
      modifies this
      ensures Valid() && items == old(items) + [Frame(SET, EncodeSet(key, value))]
    {
      Push(SET, EncodeSet(key, value));
    }

    method Del(key: Bytes)
      requires Valid()
      modifies this
      ensures Valid() && items == old(items) + [Frame(DEL, key)]
    {
      Push(DEL, key);
    }

    /** A SET item whose value is produced straight into the buffer, `produced` being what the
        producer appended before it succeeded or failed. The length is patched afterwards; a
        failure rolls the item back completely. */
    method SetWith(key: Bytes, produced: Bytes, ok: bool)
      requires Valid()
      modifies this
      ensures Valid()
      ensures ok ==> items == old(items) + [Frame(SET, EncodeSet(key, produced))]
      ensures !ok ==> out == old(out) && count == old(count) && items == old(items)
    {
      hide U32, EncodeAll, Header;
      var at := |out|;
      out := out + Header(SET, 0);
      count := count + 1;
      out := out + (U32(|key|) + key);
      out := out + produced;
      if !ok {
        out := out[..at];
        count := count - 1;
        assert out == old(out);
        return;
      }
      var len := U32(|out| - at - HEADER_LEN);
      ghost var f := Frame(SET, EncodeSet(key, produced));
      assert out == old(out) + (Header(SET, 0) + f.body);
      PatchedHeader(old(out), SET, f.body);
      out := out[..at + 1] + len + out[at + HEADER_LEN..];
      Appended(items, f);
      items := items + [f];
    }

    /** The finished body. */
    method Finish() returns (body: Bytes)
      requires Valid() && count <= MAX_ITEMS
      modifies this`out
      ensures body == EncodeBatch(items)
      ensures (forall f | f in items :: Sized(f)) ==> DecodeBatch(body) == Ok(items)
    {
      assert out[4..] == EncodeAll(items);
      out := U32(count) + out[4..];
      body := out;
      if forall f | f in items :: Sized(f) {
        BatchRoundTrip(items);
      }
    }
  }

  lemma Appended(items: seq<Frame>, f: Frame)
    ensures U32(0) + EncodeAll(items + [f]) == U32(0) + EncodeAll(items) + Header(f.tag, |f.body|) + f.body
  {
    EncodeAllSplit(items, [f]);
    EncodeAllOne(f);
  }

  /** Writing the true length over a placeholder turns it into the frame's own header. */
  lemma PatchedHeader(before: Bytes, tag: byte, body: Bytes)
    ensures var b, at := before + (Header(tag, 0) + body), |before|;
      b[..at + 1] + U32(|b| - at - HEADER_LEN) + b[at + HEADER_LEN..] == before + Header(tag, |body|) + body
  {
    var b, at := before + (Header(tag, 0) + body), |before|;
    assert b[..at + 1] == before + [tag];
    assert b[at + HEADER_LEN..] == body;
  }
}
