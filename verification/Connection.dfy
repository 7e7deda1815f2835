/** One connection: frames are served as they complete, and what is sent depends only on the
    bytes received, not on how reads cut them. */
module Connection {
  import opened Base
  import opened Wire
  import opened FrameIO
  import opened Server
  import opened BatchServer

  /** Where a connection stands: authenticated or not, the cache, the input not yet served,
      the replies given, and whether a refusal has ended it. */
  datatype Session<!S> = Session(authed: bool, cache: S, pending: Bytes, replies: seq<Frame>, closed: bool)

  function Limit(authed: bool): nat {
    if authed then MAX_FRAME else MAX_AUTH_FRAME
  }

  /** Serve every complete frame of the pending input. */
  function Served<S>(h: Host<S>, c: Session<S>): Session<S>
    decreases |c.pending|
  {
    if c.closed then c
    else
      match Head(c.pending, Limit(c.authed))
      case More => c
      case TooBig(n) => c.(replies := c.replies + [Frame(TOO_LARGE, h.say(FrameTooLong(n)))], closed := true)
      case Got(f) =>
        var rest := Rest(c.pending, Limit(c.authed));
        if c.authed then
          var (cache, r) := Dispatched(h, c.cache, f);
          Served(h, c.(cache := cache, pending := rest, replies := c.replies + [r]))
        else if f.tag == AUTH && f.body == h.token then
          Served(h, c.(authed := true, pending := rest, replies := c.replies + [Frame(OK, [])]))
        else c.(pending := rest, replies := c.replies + [Frame(UNAUTHORIZED, h.say(AuthRequired))], closed := true)
  }

  /** More input. */
  function Fed<S>(c: Session<S>, more: Bytes): Session<S> {
    c.(pending := c.pending + more)
  }

  function Opened<S>(s: S): Session<S> {
    Session(false, s, [], [], false)
  }

  /** The whole of a chunked input. */
  function Joined(chunks: seq<Bytes>): Bytes {
    if chunks == [] then [] else Joined(chunks[..|chunks| - 1]) + chunks[|chunks| - 1]
  }

  /** What a connection has done once all of `input` has arrived. */
  function Outcome<S>(h: Host<S>, s: S, input: Bytes): Session<S> {
    Served(h, Fed(Opened(s), input))
  }

  // ---- how reads cut the stream does not matter ----

  /** A frame or a refusal at the head stays what it is when more input follows. */
  lemma HeadExtends(a: Bytes, b: Bytes, limit: nat)
    ensures !Head(a, limit).More? ==> Head(a + b, limit) == Head(a, limit)
    ensures Head(a, limit).Got? ==> Rest(a + b, limit) == Rest(a, limit) + b
  {
    if |a| >= HEADER_LEN {
      assert (a + b)[1..HEADER_LEN] == a[1..HEADER_LEN];
      var len := HeaderLen(a);
      if |a| >= HEADER_LEN + len {
        assert (a + b)[HEADER_LEN..HEADER_LEN + len] == a[HEADER_LEN..HEADER_LEN + len];
        assert (a + b)[HEADER_LEN + len..] == a[HEADER_LEN + len..] + b;
      }
    }
  }

  /** What has been settled about a session: everything but its unserved input, and that too
      while it is open. */
  ghost predicate Agree<S>(c: Session<S>, d: Session<S>) {
    c.authed == d.authed && c.cache == d.cache && c.replies == d.replies && c.closed == d.closed
    && (!c.closed ==> c.pending == d.pending)
  }

  /** Serving what has arrived and then the rest is serving it all at once. */
  lemma {:induction false} ServingInParts<S>(h: Host<S>, c: Session<S>, more: Bytes)
    ensures Agree(Served(h, Fed(Served(h, c), more)), Served(h, Fed(c, more)))
    decreases |c.pending|
  {
    hide Dispatched, Head, Rest;
    if !c.closed {
      var limit := Limit(c.authed);
      HeadExtends(c.pending, more, limit);
      match Head(c.pending, limit)
      case More =>
      case TooBig(n) =>
      case Got(f) =>
        RestShrinks(c.pending, limit);
        var rest := Rest(c.pending, limit);
        if c.authed {
          var (cache, r) := Dispatched(h, c.cache, f);
          var next := c.(cache := cache, pending := rest, replies := c.replies + [r]);
          ServingInParts(h, next, more);
        } else if f.tag == AUTH && f.body == h.token {
          ServingInParts(h, c.(authed := true, pending := rest, replies := c.replies + [Frame(OK, [])]), more);
        }
    }
  }

  lemma RestShrinks(b: Bytes, limit: nat)
    ensures if Head(b, limit).Got? then |Rest(b, limit)| < |b| else Rest(b, limit) == b
  {
  }

  lemma {:induction false} JoinedSplits(a: seq<Bytes>, b: seq<Bytes>)
    ensures Joined(a + b) == Joined(a) + Joined(b)
    decreases |b|
  {
    if b == [] {
      assert a + b == a;
    } else {
      var n := |b| - 1;
      JoinedSplits(a, b[..n]);
      assert (a + b)[..|a + b| - 1] == a + b[..n] && (a + b)[|a + b| - 1] == b[n];
      assert Joined(a) + Joined(b[..n]) + b[n] == Joined(a) + (Joined(b[..n]) + b[n]);
    }
  }

  lemma JoinedNext(chunks: seq<Bytes>, n: nat)
    requires n < |chunks|
    ensures Joined(chunks[..n + 1]) == Joined(chunks[..n]) + chunks[n]
  {
    assert chunks[..n + 1][..n] == chunks[..n];
  }

  lemma ClosedStays<S>(h: Host<S>, c: Session<S>)
    requires c.closed
    ensures Served(h, c) == c
  {
  }

  /** The first refusal ends the stream: whatever follows it changes nothing. */
  lemma RefusalIsFinal<S>(h: Host<S>, s: S, input: Bytes, more: Bytes)
    requires Outcome(h, s, input).closed
    ensures Agree(Outcome(h, s, input), Outcome(h, s, input + more))
  {
    hide Served;
    var c := Fed(Opened(s), input);
    ServingInParts(h, c, more);
    ClosedStays(h, Fed(Served(h, c), more));
    assert Fed(c, more) == Fed(Opened(s), input + more) by { assert [] + input + more == [] + (input + more); }
  }

  /** However the input is cut, serving chunk by chunk is serving the whole. */
  lemma ChunkByChunk<S>(h: Host<S>, s: S, c: Session<S>, input: Bytes, chunk: Bytes)
    requires Agree(Served(h, c), Outcome(h, s, input)) && !Served(h, c).closed
    ensures Agree(Served(h, Fed(Served(h, c), chunk)), Outcome(h, s, input + chunk))
  {
    hide Served;
    var o := Fed(Opened(s), input);
    ServingInParts(h, o, chunk);
    assert Served(h, c) == Served(h, o);
    assert Fed(o, chunk) == Fed(Opened(s), input + chunk) by { assert [] + input + chunk == [] + (input + chunk); }
  }

  lemma StartsEmpty<S>(h: Host<S>, s: S)
    ensures Served(h, Opened(s)) == Outcome(h, s, Joined([])) && EncodeAll([]) == []
  {
    assert Fed(Opened(s), []) == Opened(s);
  }

  // ---- what is answered ----

  /** The refusal that ends an authenticated stream, if it ends in one. */
  function FinalRefusal<S>(h: Host<S>, b: Bytes): seq<Frame>
    decreases |b|
  {
    match Head(b, MAX_FRAME)
    case Got(f) => FinalRefusal(h, Rest(b, MAX_FRAME))
    case TooBig(n) => [Frame(TOO_LARGE, h.say(FrameTooLong(n)))]
    case More => []
  }

  lemma {:induction false} AloneFromFront<S>(h: Host<S>, s: S, f: Frame, fs: seq<Frame>)
    ensures RunAlone(h, s, [f] + fs).0 == RunAlone(h, Dispatched(h, s, f).0, fs).0
    ensures RunAlone(h, s, [f] + fs).1 == [Dispatched(h, s, f).1] + RunAlone(h, Dispatched(h, s, f).0, fs).1
    decreases |fs|
  {
    hide Dispatched;
    var all := [f] + fs;
    if fs == [] {
      assert all[..0] == [] && all[0] == f;
      assert RunAlone(h, s, all).1 == [] + [Dispatched(h, s, f).1];
    } else {
      var n := |fs| - 1;
      AloneFromFront(h, s, f, fs[..n]);
      assert all[..|all| - 1] == [f] + fs[..n] && all[|all| - 1] == fs[n];
    }
  }

  /** On an authenticated connection every complete request gets one reply, in order, and is
      served exactly as if it were the only one in flight. */
  lemma {:induction false} OneReplyPerRequest<S>(h: Host<S>, c: Session<S>)
    requires c.authed && !c.closed
    ensures Served(h, c).cache == RunAlone(h, c.cache, FramesOf(c.pending, MAX_FRAME)).0
    ensures Served(h, c).replies == c.replies + RunAlone(h, c.cache, FramesOf(c.pending, MAX_FRAME)).1 + FinalRefusal(h, c.pending)
    decreases |c.pending|
  {
    hide Dispatched, Head, Rest;
    RestShrinks(c.pending, MAX_FRAME);
    match Head(c.pending, MAX_FRAME)
    case More => assert RunAlone(h, c.cache, []).1 == [];
    case TooBig(n) => assert c.replies + [] == c.replies;
    case Got(f) =>
      var rest := Rest(c.pending, MAX_FRAME);
      var (cache, r) := Dispatched(h, c.cache, f);
      var next := c.(cache := cache, pending := rest, replies := c.replies + [r]);
      OneReplyPerRequest(h, next);
      AloneFromFront(h, c.cache, f, FramesOf(rest, MAX_FRAME));
      assert c.replies + [r] + RunAlone(h, cache, FramesOf(rest, MAX_FRAME)).1 == c.replies + ([r] + RunAlone(h, cache, FramesOf(rest, MAX_FRAME)).1);
  }

  /** Unless the input opens with a complete AUTH frame carrying the token, nothing reaches the
      cache: an incomplete first frame is waited for, any other is refused once and the
      connection closed. With the token, the rest is an authenticated stream. */
  lemma NothingBeforeAuth<S>(h: Host<S>, s: S, input: Bytes)
    ensures var o := Outcome(h, s, input);
      if Head(input, MAX_AUTH_FRAME) == Got(Frame(AUTH, h.token)) then
        o == Served(h, Session(true, s, Rest(input, MAX_AUTH_FRAME), [Frame(OK, [])], false))
      else
        !o.authed && o.cache == s &&
        match Head(input, MAX_AUTH_FRAME)
        case More => o.replies == [] && !o.closed
        case TooBig(n) => o.replies == [Frame(TOO_LARGE, h.say(FrameTooLong(n)))] && o.closed
        case Got(_) => o.replies == [Frame(UNAUTHORIZED, h.say(AuthRequired))] && o.closed
  {
    hide Head, Rest;
    assert [] + input == input;
    assert [] + [Frame(OK, [])] == [Frame(OK, [])];
  }

  lemma {:induction false} RepliesGrow<S>(h: Host<S>, c: Session<S>)
    ensures c.replies <= Served(h, c).replies
    decreases |c.pending|
  {
    hide Dispatched, Head, Rest;
    if !c.closed && Head(c.pending, Limit(c.authed)).Got? {
      RestShrinks(c.pending, Limit(c.authed));
      var f, rest := Head(c.pending, Limit(c.authed)).frame, Rest(c.pending, Limit(c.authed));
      if c.authed {
        var (cache, r) := Dispatched(h, c.cache, f);
        RepliesGrow(h, c.(cache := cache, pending := rest, replies := c.replies + [r]));
      } else if f.tag == AUTH && f.body == h.token {
        RepliesGrow(h, c.(authed := true, pending := rest, replies := c.replies + [Frame(OK, [])]));
      }
    }
  }

  /** More input only adds to the bytes replied. */
  lemma RepliesOnlyGrow<S>(h: Host<S>, s: S, input: Bytes, more: Bytes)
    ensures EncodeAll(Outcome(h, s, input).replies) <= EncodeAll(Outcome(h, s, input + more).replies)
  {
    hide Served, EncodeAll;
    var c := Fed(Opened(s), input);
    ServingInParts(h, c, more);
    RepliesGrow(h, Fed(Served(h, c), more));
    assert Fed(c, more) == Fed(Opened(s), input + more) by { assert [] + input + more == [] + (input + more); }
    var a, b := Outcome(h, s, input).replies, Outcome(h, s, input + more).replies;
    EncodeAllSplit(a, b[|a|..]);
    assert a + b[|a|..] == b;
  }

  // ---- serving ----

  /** Serve every complete frame already buffered. `c` is the session so far, of whose reply
      bytes `flushed` have left; what is queued on top are the rest. */
  method ServeBuffered<S>(h: Host<S>, reader: FrameReader, out: FrameWriter, ghost c: Session<S>, ghost flushed: Bytes,
                          authed0: bool, s0: S)
    returns (authed: bool, s: S, close: bool)
    requires reader.Valid() && out.Valid() && reader.maxFrame == Limit(authed0)
    requires c == Session(authed0, s0, reader.Pending(), c.replies, false)
    requires flushed + out.Queued() == EncodeAll(c.replies)
    modifies reader, out
    ensures reader.Valid() && out.Valid()
    ensures var d := Served(h, c);
      && authed == d.authed && s == d.cache && close == d.closed
      && (!close ==> reader.Pending() == d.pending && reader.maxFrame == Limit(authed))
      && flushed + out.Queued() == EncodeAll(d.replies)
  {
    hide Dispatched, Head, Rest, EncodeAll, Encode;
    authed, s := authed0, s0;
    ghost var now := c;
    while true
      invariant reader.Valid() && out.Valid() && reader.maxFrame == Limit(authed)
      invariant now == Session(authed, s, reader.Pending(), now.replies, false)
      invariant flushed + out.Queued() == EncodeAll(now.replies)
      invariant Served(h, now) == Served(h, c)
      decreases |reader.Pending()|
    {
      RestShrinks(reader.Pending(), Limit(authed));
      var r := reader.NextBuffered();
      match r
      case More => return authed, s, false;
      case TooBig(n) =>
        Reply(out, Frame(TOO_LARGE, h.say(FrameTooLong(n))), now.replies, flushed);
        return authed, s, true;
      case Got(f) =>
        if authed {
          ghost var answer := Dispatched(h, s, f);
          OneMore(now.replies, answer.1, flushed, out.Queued());
          s := Dispatch(h, s, f, out);
          now := now.(cache := s, pending := reader.Pending(), replies := now.replies + [answer.1]);
        } else if f.tag == AUTH && f.body == h.token {
          authed := true;
          reader.SetMaxFrame(MAX_FRAME);
          Reply(out, Frame(OK, []), now.replies, flushed);
          now := now.(authed := true, pending := reader.Pending(), replies := now.replies + [Frame(OK, [])]);
        } else {
          Reply(out, Frame(UNAUTHORIZED, h.say(AuthRequired)), now.replies, flushed);
          return authed, s, true;
        }
    }
  }

  method Reply(out: FrameWriter, r: Frame, ghost replies: seq<Frame>, ghost flushed: Bytes)
    requires out.Valid() && flushed + out.Queued() == EncodeAll(replies)
    modifies out
    ensures out.Valid() && flushed + out.Queued() == EncodeAll(replies + [r])
  {
    OneMore(replies, r, flushed, out.Queued());
    out.PutFrame(r);
  }

  lemma OneMore(replies: seq<Frame>, r: Frame, flushed: Bytes, queued: Bytes)
    requires flushed + queued == EncodeAll(replies)
    ensures flushed + (queued + Encode(r)) == EncodeAll(replies + [r])
  {
    EncodeAllSplit(replies, [r]);
    EncodeAllOne(r);
  }

  /** The whole input against a part of it: replies only grow, and not past a refusal. */
  lemma AfterPart<S>(h: Host<S>, s: S, chunks: seq<Bytes>, n: nat)
    requires n <= |chunks|
    ensures EncodeAll(Outcome(h, s, Joined(chunks[..n])).replies) <= EncodeAll(Outcome(h, s, Joined(chunks)).replies)
    ensures Outcome(h, s, Joined(chunks[..n])).closed ==>
              Agree(Outcome(h, s, Joined(chunks[..n])), Outcome(h, s, Joined(chunks)))
  {
    hide Outcome, Joined, EncodeAll, Agree;
    JoinedSplits(chunks[..n], chunks[n..]);
    assert chunks[..n] + chunks[n..] == chunks;
    RepliesOnlyGrow(h, s, Joined(chunks[..n]), Joined(chunks[n..]));
    if Outcome(h, s, Joined(chunks[..n])).closed {
      RefusalIsFinal(h, s, Joined(chunks[..n]), Joined(chunks[n..]));
    }
  }

  /** Serve a connection to its end, `chunks` being what successive reads return before the
      empty read that ends the input. What the peer receives, what becomes of the cache and
      whether the connection was refused are functions of the bytes alone. A peer that stops
      taking bytes ends the connection early: it has received a prefix of the same replies, and
      the cache is that of the input read so far. */
  method Serve<S>(h: Host<S>, s0: S, chunks: seq<Bytes>, w: Sink) returns (s: S, refused: bool, broken: bool)
    requires w.received == [] && forall c | c in chunks :: c != []
    modifies w
    ensures w.fair ==> !broken
    ensures !broken ==>
      var o := Outcome(h, s0, Joined(chunks));
      s == o.cache && refused == o.closed && w.received == EncodeAll(o.replies)
    ensures broken ==>
      && w.received <= EncodeAll(Outcome(h, s0, Joined(chunks)).replies)
      && exists n :: 0 <= n <= |chunks| && s == Outcome(h, s0, Joined(chunks[..n])).cache
  {
    hide Served, Head, Rest, EncodeAll, Joined, Outcome, Flushable, FrameWriter.Queued, FrameWriter.Spilled;
    var authed := false;
    var reader := new FrameReader(MAX_AUTH_FRAME);
    var out := new FrameWriter(INLINE_BODY);
    s, refused, broken := s0, false, false;
    var n := 0;
    ghost var c := Opened(s0);
    StartsEmpty(h, s0);
    assert chunks[..0] == [];
    while true
      invariant 0 <= n <= |chunks| && fresh(reader) && fresh(out)
      invariant reader.Valid() && out.Valid() && out.inlineLimit > 0 && out.Queued() == []
      invariant reader.maxFrame == Limit(authed)
      invariant c == Session(authed, s, reader.Pending(), c.replies, false)
      invariant w.received == EncodeAll(c.replies)
      invariant Agree(Served(h, c), Outcome(h, s0, Joined(chunks[..n])))
      decreases |chunks| - n
    {
      ghost var flushed := w.received;
      authed, s, refused := ServeBuffered(h, reader, out, c, flushed, authed, s);
      ghost var d := Served(h, c);
      var ok := out.Flush(w);
      if !ok {
        AfterPart(h, s0, chunks, n);
        assert w.received <= EncodeAll(d.replies);
        broken := true;
        return;
      }
      if refused {
        AfterPart(h, s0, chunks, n);
        return;
      }
      if n == |chunks| {
        assert chunks[..n] == chunks;
        return;
      }
      reader.Fill(chunks[n]);
      ChunkByChunk(h, s0, c, Joined(chunks[..n]), chunks[n]);
      JoinedNext(chunks, n);
      n := n + 1;
      c := Fed(d, chunks[n - 1]);
    }
  }
}
