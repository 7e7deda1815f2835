/** Frame I/O over a byte stream: a reader that lends frames out of its buffer, and a writer
    that coalesces small frames, queues large bodies by reference and patches lengths late. */
module FrameIO {
  import opened Base
  import opened Wire

  const BUF := 0x1_0000
  const INLINE_BODY := 1024
  const MAX_IOV := 64

  // ---- reading ----

  datatype Read = More | TooBig(len: nat) | Got(frame: Frame)

  /** What the bytes at the head of a stream are, given the accepted body length. */
  function Head(b: Bytes, maxFrame: nat): Read {
    if |b| < HEADER_LEN then More
    else if HeaderLen(b) > maxFrame then TooBig(HeaderLen(b))
    else if |b| < HEADER_LEN + HeaderLen(b) then More
    else Got(Frame(b[0], b[HEADER_LEN..HEADER_LEN + HeaderLen(b)]))
  }

  function Rest(b: Bytes, maxFrame: nat): Bytes {
    if Head(b, maxFrame).Got? then b[HEADER_LEN + HeaderLen(b)..] else b
  }

  /** The complete frames of a stream, up to the first one over the limit. */
  function FramesOf(b: Bytes, maxFrame: nat): seq<Frame>
    decreases |b|
  {
    match Head(b, maxFrame)
    case Got(f) => [f] + FramesOf(Rest(b, maxFrame), maxFrame)
    case _ => []
  }

  predicate Within(f: Frame, maxFrame: nat) {
    Sized(f) && |f.body| <= maxFrame
  }

  /** A stream that opens with an encoded frame yields that frame and leaves the rest. */
  lemma HeadOfEncoded(f: Frame, rest: Bytes, maxFrame: nat)
    requires Within(f, maxFrame)
    ensures Head(Encode(f) + rest, maxFrame) == Got(f) && Rest(Encode(f) + rest, maxFrame) == rest
  {
    var b := Encode(f) + rest;
    assert b == Header(f.tag, |f.body|) + (f.body + rest);
    HeaderReadsBack(f.tag, |f.body|, f.body + rest);
    assert b[HEADER_LEN..HEADER_LEN + |f.body|] == f.body;
    assert b[HEADER_LEN + |f.body|..] == rest;
  }

  /** A frame at the head of a stream is there byte for byte. */
  lemma HeadIsEncoded(b: Bytes, maxFrame: nat)
    requires Head(b, maxFrame).Got?
    ensures b == Encode(Head(b, maxFrame).frame) + Rest(b, maxFrame) && Within(Head(b, maxFrame).frame, maxFrame)
  {
    HeaderWritesBack(b);
  }

  lemma {:induction false} FramesOfEncoded(fs: seq<Frame>, rest: Bytes, maxFrame: nat)
    requires forall f | f in fs :: Within(f, maxFrame)
    ensures FramesOf(EncodeAll(fs) + rest, maxFrame) == fs + FramesOf(rest, maxFrame)
  {
    hide Encode, Head, Rest;
    if fs == [] {
      assert EncodeAll(fs) + rest == rest;
    } else {
      assert fs[0] in fs && forall f | f in fs[1..] :: f in fs;
      FramesOfEncoded(fs[1..], rest, maxFrame);
      assert EncodeAll(fs) + rest == Encode(fs[0]) + (EncodeAll(fs[1..]) + rest);
      HeadOfEncoded(fs[0], EncodeAll(fs[1..]) + rest, maxFrame);
      assert [fs[0]] + (fs[1..] + FramesOf(rest, maxFrame)) == fs + FramesOf(rest, maxFrame);
    }
  }

  class FrameReader {
    var buf: Bytes
    var maxFrame: nat
    var need: nat
    var lent: nat

    ghost predicate Valid()
      reads this
    {
      lent <= |buf|
    }

    /** The input not yet handed out. */
    ghost function Pending(): Bytes
      requires Valid()
      reads this
    {
      buf[lent..]
    }

    constructor (maxFrame: nat)
      ensures Valid() && Pending() == [] && this.maxFrame == maxFrame
    {
      buf, this.maxFrame, need, lent := [], maxFrame, 0, 0;
    }

    /** The next complete frame in the buffer. Its bytes stay until the next call. `need` is the
        size of the frame being waited for, once its header is in. */
    method NextBuffered() returns (r: Read)
      requires Valid()
      modifies this
      ensures Valid() && maxFrame == old(maxFrame)
      ensures r == Head(old(Pending()), maxFrame) && Pending() == Rest(old(Pending()), maxFrame)
      ensures need == match r
                      case Got(_) => 0
                      case TooBig(_) => old(need)
                      case More => if |Pending()| < HEADER_LEN then old(need) else HEADER_LEN + HeaderLen(Pending())
    {
      buf, lent := buf[lent..], 0;
      if |buf| < HEADER_LEN {
        return More;
      }
      var len := HeaderLen(buf);
      if len > maxFrame {
        return TooBig(len);
      }
      if |buf| < HEADER_LEN + len {
        need := HEADER_LEN + len;
        return More;
      }
      need := 0;
      lent := HEADER_LEN + len;
      return Got(Frame(buf[0], buf[HEADER_LEN..lent]));
    }

    /** Append what one read of the stream returned. */
    method Fill(chunk: Bytes)
      requires Valid()
      modifies this
      ensures Valid() && maxFrame == old(maxFrame) && Pending() == old(Pending()) + chunk
    {
      buf, lent := buf[lent..], 0;
      buf := buf + chunk;
    }

    method SetMaxFrame(n: nat)
      requires Valid()
      modifies this`maxFrame
      ensures maxFrame == n
    {
      maxFrame := n;
    }
  }

  // ---- writing ----

  /** A spilled buffer stays patchable; a referenced body is shared and never touched. */
  datatype Piece = Own(b: Bytes) | Shared(b: Bytes)

  /** Where a frame of unknown length begins: its piece, the offset in it, and the number of
      bytes queued before it. */
  datatype Mark = Mark(piece: nat, offset: nat, len: nat)

  function Flat(ps: seq<Piece>): Bytes {
    if ps == [] then [] else ps[0].b + Flat(ps[1..])
  }

  lemma {:induction false} FlatSplit(a: seq<Piece>, b: seq<Piece>)
    ensures Flat(a + b) == Flat(a) + Flat(b)
  {
    if a == [] {
      assert a + b == b;
    } else {
      FlatSplit(a[1..], b);
      assert (a + b)[1..] == a[1..] + b && (a + b)[0] == a[0];
      assert a[0].b + (Flat(a[1..]) + Flat(b)) == a[0].b + Flat(a[1..]) + Flat(b);
    }
  }

  lemma FlatAppend(ps: seq<Piece>, p: Piece)
    ensures Flat(ps + [p]) == Flat(ps) + p.b
  {
    FlatSplit(ps, [p]);
    assert [p][1..] == [];
    assert Flat([p]) == p.b;
  }

  /** The bytes of `s` with `x` written at position `at`. */
  function Overwrite(s: Bytes, at: nat, x: Bytes): Bytes
    requires at + |x| <= |s|
  {
    s[..at] + x + s[at + |x|..]
  }

  lemma OverwriteBehind(a: Bytes, b: Bytes, at: nat, x: Bytes)
    requires at + |x| <= |b|
    ensures a + Overwrite(b, at, x) == Overwrite(a + b, |a| + at, x) && |Overwrite(a + b, |a| + at, x)| == |a + b|
  {
    assert (a + b)[..|a| + at] == a + b[..at];
    assert (a + b)[|a| + at + |x|..] == b[at + |x|..];
  }

  lemma OverwriteKeepsBytes(s: Bytes, at: nat, x: Bytes)
    requires at + |x| <= |s|
    ensures |Overwrite(s, at, x)| == |s|
  {
  }

  lemma FlatOverwrite(ps: seq<Piece>, i: nat, at: nat, x: Bytes, tail: Bytes)
    requires i < |ps| && at + |x| <= |ps[i].b|
    ensures |Flat(ps[..i])| + |ps[i].b| <= |Flat(ps)|
    ensures Flat(ps[i := Own(Overwrite(ps[i].b, at, x))]) + tail == Overwrite(Flat(ps) + tail, |Flat(ps[..i])| + at, x)
    ensures |Overwrite(Flat(ps) + tail, |Flat(ps[..i])| + at, x)| == |Flat(ps) + tail|
  {
    hide Flat;
    var a, p, c := ps[..i], ps[i], ps[i + 1..];
    var p' := Own(Overwrite(p.b, at, x));
    assert ps == a + [p] + c && ps[i := p'] == a + [p'] + c;
    FlatSplit(a + [p], c);
    FlatAppend(a, p);
    FlatSplit(a + [p'], c);
    FlatAppend(a, p');
  }

  /** A destination that may take any part of what it is offered. */
  class Sink {
    var received: Bytes
    /** Whether it always takes something when offered something. */
    const fair: bool

    constructor (fair: bool)
      ensures received == [] && this.fair == fair
    {
      received, this.fair := [], fair;
    }

    method WriteVectored(iov: seq<Piece>) returns (n: nat)
      modifies this
      ensures n <= |Flat(iov)| && received == old(received) + Flat(iov)[..n]
      ensures fair && Flat(iov) != [] ==> n > 0
    {
      var all := Flat(iov);
      n :| 0 <= n <= |all| && (fair && all != [] ==> n > 0);
      received := received + all[..n];
    }
  }

  predicate InPiece(ps: seq<Piece>, idx: nat, off: nat) {
    if idx < |ps| then off <= |ps[idx].b| else idx == |ps| && off == 0
  }

  /** The bytes not yet written: the rest of piece `idx` from `off`, and every later piece. */
  function Left(ps: seq<Piece>, idx: nat, off: nat): Bytes
    requires InPiece(ps, idx, off)
  {
    if idx == |ps| then [] else ps[idx].b[off..] + Flat(ps[idx + 1..])
  }

  lemma StartOfPieces(ps: seq<Piece>)
    ensures Left(ps, 0, 0) == Flat(ps)
  {
  }

  lemma EndOfPieces(ps: seq<Piece>, off: nat)
    requires InPiece(ps, |ps|, off)
    ensures Left(ps, |ps|, off) == [] && Flat([]) == []
  {
  }

  lemma NothingAfter(ps: seq<Piece>, chunk: Bytes)
    ensures chunk == [] ==> Flat(ps) + chunk == Flat(ps)
  {
  }

  lemma SentSoFar(sent: Bytes, all: Bytes, now: Bytes, left: Bytes)
    requires now + left == sent + all && |sent| <= |now|
    ensures |now| - |sent| <= |all| && now == sent + all[..|now| - |sent|]
  {
    var n := |now| - |sent|;
    assert now == (now + left)[..|now|];
    assert (sent + all)[..|now|] == sent + all[..n];
  }

  /** The end of the pieces one write offers, starting with piece `idx`. */
  function Reach(ps: seq<Piece>, idx: nat): nat
    requires idx <= |ps|
  {
    if |ps| - idx < MAX_IOV then |ps| else idx + MAX_IOV
  }

  predicate AllEmpty(ps: seq<Piece>, from: nat, to: nat)
    requires from <= to <= |ps|
  {
    forall k | from <= k < to :: ps[k].b == []
  }

  /** From piece `j` on, one write offers nothing: `MAX_IOV` pieces in a row, or all that are
      left, are empty. */
  predicate StuckAt(ps: seq<Piece>, j: nat) {
    j < |ps| && AllEmpty(ps, j, Reach(ps, j))
  }

  /** `MAX_IOV` pieces in a row are empty. */
  predicate EmptyRun(ps: seq<Piece>, j: nat) {
    j + MAX_IOV <= |ps| && AllEmpty(ps, j, j + MAX_IOV)
  }

  /** The last piece holds bytes and no `MAX_IOV` pieces in a row are empty. */
  ghost predicate Flushable(ps: seq<Piece>) {
    && (ps != [] ==> ps[|ps| - 1].b != [])
    && forall j: nat :: !EmptyRun(ps, j)
  }

  lemma FlushableUnlessStuck(ps: seq<Piece>)
    ensures Flushable(ps) <==> forall j: nat :: !StuckAt(ps, j)
    ensures (forall p | p in ps :: p.b != []) ==> Flushable(ps)
  {
    forall j: nat
      ensures EmptyRun(ps, j) ==> StuckAt(ps, j)
      ensures StuckAt(ps, j) ==> EmptyRun(ps, j) || ps[|ps| - 1].b == []
      ensures StuckAt(ps, j) ==> ps[j] in ps && ps[j].b == []
    {
      if StuckAt(ps, j) && !EmptyRun(ps, j) {
        assert Reach(ps, j) == |ps|;
      }
    }
    assert ps != [] && ps[|ps| - 1].b == [] ==> StuckAt(ps, |ps| - 1);
  }

  lemma {:induction false} FlatFrom(ps: seq<Piece>, i: nat, j: nat)
    requires i <= j <= |ps|
    ensures |Flat(ps[j..])| <= |Flat(ps[i..])|
    ensures AllEmpty(ps, i, j) <==> |Flat(ps[j..])| == |Flat(ps[i..])|
    decreases j - i
  {
    hide Flat;
    if i < j {
      FlatFrom(ps, i + 1, j);
      FlatHead(ps, i);
    }
  }

  /** What one write offers is empty exactly where the writer is stuck, once it is not in the
      middle of a piece. */
  lemma OfferIsEmptyIfStuck(ps: seq<Piece>, idx: nat, off: nat)
    requires idx < |ps| && InPiece(ps, idx, off) && (off == 0 || off < |ps[idx].b|)
    ensures |Left(ps, idx, off)| == |Flat(ps[Reach(ps, idx)..])| <==> StuckAt(ps, idx)
    ensures |Left(ps, idx, off)| >= |Flat(ps[Reach(ps, idx)..])|
  {
    hide Flat;
    FlatHead(ps, idx);
    FlatFrom(ps, idx, Reach(ps, idx));
    FlatFrom(ps, idx + 1, Reach(ps, idx));
  }

  /** No write that starts before a stuck place offers a byte from beyond it. */
  lemma NothingBeyondStuck(ps: seq<Piece>, idx: nat, j: nat)
    requires idx <= j && StuckAt(ps, j)
    ensures |Flat(ps[j..])| <= |Flat(ps[Reach(ps, idx)..])|
  {
    hide Flat;
    var e := Reach(ps, idx);
    if e <= j {
      FlatFrom(ps, e, j);
    } else {
      FlatFrom(ps, j, e);
    }
  }

  /** The slices one vectored write offers: at most `MAX_IOV` pieces, a prefix of what is left. */
  method Offer(ps: seq<Piece>, idx: nat, off: nat) returns (iov: seq<Piece>)
    requires idx < |ps| && InPiece(ps, idx, off)
    ensures Flat(iov) + Flat(ps[Reach(ps, idx)..]) == Left(ps, idx, off)
  {
    hide Flat, Left;
    var n := Reach(ps, idx) - idx;
    iov := [Shared(ps[idx].b[off..])];
    OfferStarts(ps, idx, off);
    for k := 1 to n
      invariant Flat(iov) + Flat(ps[idx + k..]) == Left(ps, idx, off)
    {
      OfferNext(ps, idx + k, iov);
      iov := iov + [Shared(ps[idx + k].b)];
    }
  }

  lemma OfferNext(ps: seq<Piece>, i: nat, iov: seq<Piece>)
    requires i < |ps|
    ensures Flat(iov + [Shared(ps[i].b)]) + Flat(ps[i + 1..]) == Flat(iov) + Flat(ps[i..])
  {
    hide Flat;
    FlatAppend(iov, Shared(ps[i].b));
    FlatHead(ps, i);
    assert Flat(iov) + (ps[i].b + Flat(ps[i + 1..])) == Flat(iov) + ps[i].b + Flat(ps[i + 1..]);
  }

  lemma OfferStarts(ps: seq<Piece>, idx: nat, off: nat)
    requires idx < |ps| && InPiece(ps, idx, off)
    ensures Flat([Shared(ps[idx].b[off..])]) == ps[idx].b[off..]
    ensures Flat([Shared(ps[idx].b[off..])]) + Flat(ps[idx + 1..]) == Left(ps, idx, off)
  {
    FlatAppend([], Shared(ps[idx].b[off..]));
    assert [] + [Shared(ps[idx].b[off..])] == [Shared(ps[idx].b[off..])];
  }

  lemma FlatHead(ps: seq<Piece>, i: nat)
    requires i < |ps|
    ensures Flat(ps[i..]) == ps[i].b + Flat(ps[i + 1..])
  {
    assert ps[i..][1..] == ps[i + 1..];
  }

  /** Step over `written` bytes: whole pieces first, then into one. The step ends before
      `stop` if the bytes do. */
  method Advance(ps: seq<Piece>, idx0: nat, off0: nat, written0: nat, ghost stop: nat) returns (idx: nat, off: nat)
    requires InPiece(ps, idx0, off0) && idx0 < |ps| && 0 < written0 <= |Left(ps, idx0, off0)|
    requires idx0 <= stop <= |ps| && written0 + |Flat(ps[stop..])| <= |Left(ps, idx0, off0)|
    ensures InPiece(ps, idx, off) && Left(ps, idx, off) == Left(ps, idx0, off0)[written0..]
    ensures idx < |ps| ==> off == 0 || off < |ps[idx].b|
    ensures idx <= stop
  {
    hide Flat, Left;
    var written: nat := written0;
    idx, off := idx0, off0;
    while written > 0
      invariant InPiece(ps, idx, off) && written <= written0
      invariant idx <= stop && written + |Flat(ps[stop..])| <= |Left(ps, idx, off)|
      invariant Left(ps, idx, off)[written..] == Left(ps, idx0, off0)[written0..]
      invariant idx < |ps| && written == 0 ==> off == 0 || off < |ps[idx].b|
      decreases |ps| - idx, written
    {
      LeftLength(ps, idx, off);
      LeftSteps(ps, idx, off, written);
      var remaining := |ps[idx].b| - off;
      if written >= remaining {
        written := written - remaining;
        idx, off := idx + 1, 0;
      } else {
        off := off + written;
        written := 0;
      }
    }
    assert Left(ps, idx, off)[0..] == Left(ps, idx, off);
  }

  lemma LeftLength(ps: seq<Piece>, idx: nat, off: nat)
    requires InPiece(ps, idx, off)
    ensures |Left(ps, idx, off)| + off == |Flat(ps[idx..])|
  {
    hide Flat;
    if idx < |ps| {
      FlatHead(ps, idx);
    } else {
      EndOfPieces(ps, off);
      assert ps[idx..] == [];
    }
  }

  lemma LeftSteps(ps: seq<Piece>, idx: nat, off: nat, written: nat)
    requires idx < |ps| && InPiece(ps, idx, off) && written <= |Left(ps, idx, off)|
    ensures var r := |ps[idx].b| - off;
      if written >= r then
        && InPiece(ps, idx + 1, 0) && written - r <= |Left(ps, idx + 1, 0)|
        && Left(ps, idx + 1, 0)[written - r..] == Left(ps, idx, off)[written..]
      else
        Left(ps, idx, off + written) == Left(ps, idx, off)[written..]
  {
    hide Flat;
    var r, left := |ps[idx].b| - off, Left(ps, idx, off);
    if written >= r {
      assert left[r..] == Flat(ps[idx + 1..]);
      if idx + 1 < |ps| {
        FlatHead(ps, idx + 1);
      } else {
        EndOfPieces(ps, 0);
        assert ps[idx + 1..] == [];
      }
      assert left[written..] == left[r..][written - r..];
    } else {
      assert left[written..] == ps[idx].b[off + written..] + Flat(ps[idx + 1..]);
    }
  }

  /** The first place a flush of these pieces gets stuck, or their end. */
  ghost function FirstStuck(ps: seq<Piece>): (j: nat)
    ensures j <= |ps| && (j < |ps| <==> !Flushable(ps)) && (j < |ps| ==> StuckAt(ps, j))
    ensures (forall p | p in ps :: p.b != []) ==> Flushable(ps)
  {
    FlushableUnlessStuck(ps);
    if j: nat :| StuckAt(ps, j) then j else |ps|
  }

  class FrameWriter {
    var chunk: Bytes
    var pieces: seq<Piece>
    var len: nat
    const inlineLimit: nat

    /** The flat byte string this writer stands for. */
    ghost function Queued(): Bytes
      reads this
    {
      Flat(pieces) + chunk
    }

    ghost predicate Valid()
      reads this
    {
      && len == |Queued()|
      && (inlineLimit > 0 ==> forall p | p in pieces :: p.b != [])
    }

    /** The bytes a mark's piece number refers to: a spilled piece or the open chunk. */
    ghost function PieceAt(i: nat): Bytes
      requires i <= |pieces|
      reads this
    {
      if i == |pieces| then chunk else pieces[i].b
    }

    /** A mark still points at the placeholder header it was made for. */
    ghost predicate Marks(m: Mark)
      reads this
    {
      && m.piece <= |pieces| && (m.piece < |pieces| ==> pieces[m.piece].Own?)
      && m.offset + HEADER_LEN <= |PieceAt(m.piece)|
      && m.len == |Flat(pieces[..m.piece])| + m.offset
    }

    constructor (inlineLimit: nat)
      ensures Valid() && Queued() == [] && this.inlineLimit == inlineLimit && pieces == [] && chunk == []
    {
      chunk, pieces, len, this.inlineLimit := [], [], 0, inlineLimit;
    }

    method Spill()
      requires Valid() && chunk != []
      modifies this`chunk, this`pieces
      ensures Valid() && Queued() == old(Queued()) && chunk == [] && pieces == old(pieces) + [Own(old(chunk))]
      ensures forall m :: old(Marks(m)) ==> Marks(m)
    {
      FlatAppend(pieces, Own(chunk));
      pieces, chunk := pieces + [Own(chunk)], [];
      assert forall m: Mark | old(Marks(m)) :: pieces[..m.piece] == old(pieces)[..m.piece];
    }

    /** Append bytes by copy. A full chunk is spilled rather than grown. */
    method PutSlice(b: Bytes)
      requires Valid()
      modifies this
      ensures Valid() && Queued() == old(Queued()) + b
      ensures old(|chunk| + |b| <= BUF || chunk == []) ==> pieces == old(pieces) && chunk == old(chunk) + b
      ensures old(|chunk| + |b| > BUF && chunk != []) ==> pieces == old(pieces) + [Own(old(chunk))] && chunk == b
      ensures forall m :: old(Marks(m)) ==> Marks(m)
    {
      if |chunk| + |b| > BUF && chunk != [] {
        Spill();
      }
      assert Flat(pieces) + chunk + b == Flat(pieces) + (chunk + b);
      chunk := chunk + b;
      len := len + |b|;
    }

    /** Append bytes by copy when they are short, by reference otherwise. */
    method PutBytes(b: Bytes)
      requires Valid()
      modifies this
      ensures Valid() && Queued() == old(Queued()) + b
      ensures |b| >= inlineLimit && old(chunk) == [] ==> pieces == old(pieces) + [Shared(b)] && chunk == []
      ensures forall m :: old(Marks(m)) ==> Marks(m)
    {
      if |b| < inlineLimit {
        PutSlice(b);
      } else {
        if chunk != [] {
          Spill();
        }
        FlatAppend(pieces, Shared(b));
        ghost var before := pieces;
        len := len + |b|;
        pieces := pieces + [Shared(b)];
        assert forall i | 0 <= i <= |before| :: pieces[..i] == before[..i];
      }
    }

    /** Start a frame whose body will total `n` bytes. */
    method PutHeader(tag: byte, n: nat)
      requires Valid()
      modifies this
      ensures Valid() && Queued() == old(Queued()) + Header(tag, n)
      ensures forall m :: old(Marks(m)) ==> Marks(m)
    {
      PutSlice(Header(tag, n));
    }

    /** Append a whole frame. */
    method PutFrame(f: Frame)
      requires Valid()
      modifies this
      ensures Valid() && Queued() == old(Queued()) + Encode(f)
      ensures forall m :: old(Marks(m)) ==> Marks(m)
    {
      PutHeader(f.tag, |f.body|);
      PutBytes(f.body);
      assert old(Queued()) + Header(f.tag, |f.body|) + f.body == old(Queued()) + Encode(f);
    }

    /** Start a frame whose length is only known once its body is written. */
    method Begin(tag: byte) returns (m: Mark)
      requires Valid()
      modifies this
      ensures Valid() && Queued() == old(Queued()) + Header(tag, 0)
      ensures Marks(m) && m.len == |old(Queued())|
      ensures pieces == if old(|chunk| + HEADER_LEN > BUF && chunk != []) then old(pieces) + [Own(old(chunk))] else old(pieces)
    {
      if |chunk| + HEADER_LEN > BUF && chunk != [] {
        Spill();
      }
      m := Mark(|pieces|, |chunk|, len);
      assert pieces[..|pieces|] == pieces;
      PutSlice(Header(tag, 0));
    }

    /** Bytes written since the mark's header. */
    method Since(m: Mark) returns (n: nat)
      requires Valid() && Marks(m)
      ensures n == |Queued()| - m.len - HEADER_LEN
    {
      MarkInside(m);
      n := len - m.len - HEADER_LEN;
    }

    /** Close the frame begun at `m` with what has been written since. */
    method End(m: Mark)
      requires Valid() && Marks(m)
      modifies this`chunk, this`pieces
      ensures m.len + HEADER_LEN <= |old(Queued())|
      ensures Valid() && Queued() == Overwrite(old(Queued()), m.len + 1, U32(|old(Queued())| - m.len - HEADER_LEN))
    {
      hide Flat, Overwrite, U32;
      var n := Since(m);
      MarkInside(m);
      var x := U32(n);
      if m.piece == |pieces| {
        assert pieces[..m.piece] == pieces;
        OverwriteBehind(Flat(pieces), chunk, m.offset + 1, x);
        chunk := Overwrite(chunk, m.offset + 1, x);
      } else {
        FlatOverwrite(pieces, m.piece, m.offset + 1, x, chunk);
        OverwriteKeepsBytes(pieces[m.piece].b, m.offset + 1, x);
        pieces := pieces[m.piece := Own(Overwrite(pieces[m.piece].b, m.offset + 1, x))];
      }
    }

    /** Drop everything written since `m`, header included. */
    method Abort(m: Mark)
      requires Valid() && Marks(m)
      modifies this
      ensures m.len <= |old(Queued())|
      ensures Valid() && Queued() == old(Queued())[..m.len]
    {
      MarkInside(m);
      if m.piece < |pieces| {
        var b := pieces[m.piece].b;
        FlatPrefix(pieces, m.piece);
        assert Flat(pieces[..m.piece]) + b[..m.offset] == old(Queued())[..m.len];
        pieces := pieces[..m.piece];
        chunk := b[..m.offset];
      } else {
        assert pieces[..m.piece] == pieces;
        chunk := chunk[..m.offset];
      }
      len := m.len;
    }

    lemma MarkInside(m: Mark)
      requires Valid() && Marks(m)
      ensures m.len + HEADER_LEN <= |Queued()|
    {
      if m.piece < |pieces| {
        FlatPrefix(pieces, m.piece);
      } else {
        assert pieces[..m.piece] == pieces;
      }
    }

    /** What a flush writes from: the queued pieces, the open chunk spilled behind them. */
    function Spilled(): seq<Piece>
      reads this
    {
      if chunk == [] then pieces else pieces + [Own(chunk)]
    }

    /** Write everything queued, in as many vectored writes as the sink needs. On success the
        sink has received exactly the queued bytes; a write of nothing gives up, having sent a
        prefix; everything is then still queued, what was sent included. A sink that always
        takes something is flushed, whatever parts it takes, if and only if the last piece holds
        bytes and no `MAX_IOV` pieces in a row are empty. A positive inline limit guarantees
        that; no sink is ever flushed otherwise. */
    method Flush(w: Sink) returns (ok: bool)
      requires Valid()
      modifies this, w
      ensures ok ==> Valid() && Queued() == [] && w.received == old(w.received) + old(Queued())
      ensures !ok ==> exists n :: 0 <= n <= |old(Queued())| && w.received == old(w.received) + old(Queued())[..n]
      ensures !ok ==> Valid() && Queued() == old(Queued())
      ensures ok ==> Flushable(old(Spilled()))
      ensures w.fair && Flushable(old(Spilled())) ==> ok
      ensures inlineLimit > 0 ==> Flushable(old(Spilled()))
    {
      hide Flat, Left, Flushable, StuckAt;
      if chunk != [] {
        Spill();
      }
      NothingAfter(pieces, chunk);
      var ps := pieces;
      var idx: nat, off: nat := 0, 0;
      ghost var all := Flat(ps);
      StartOfPieces(ps);
      ghost var stop := FirstStuck(ps);
      while idx < |ps|
        invariant 0 <= idx <= |ps| && InPiece(ps, idx, off)
        invariant w.received + Left(ps, idx, off) == old(w.received) + all
        invariant pieces == ps && chunk == [] && Valid() && Queued() == old(Queued())
        invariant idx <= stop && (idx < |ps| ==> off == 0 || off < |ps[idx].b|)
        decreases |Left(ps, idx, off)|
      {
        ghost var before, left := w.received, Left(ps, idx, off);
        var iov := Offer(ps, idx, off);
        var written := w.WriteVectored(iov);
        assert Flat(iov)[..written] == left[..written] && written <= |left|;
        if written == 0 {
          assert w.received == before;
          SentSoFar(old(w.received), all, before, left);
          OfferIsEmptyIfStuck(ps, idx, off);
          if w.fair {
            assert StuckAt(ps, idx);
            FlushableUnlessStuck(ps);
          }
          return false;
        }
        assert before + left == before + left[..written] + left[written..];
        StopsBefore(ps, idx, stop);
        idx, off := Advance(ps, idx, off, written, stop);
      }
      EndOfPieces(ps, off);
      pieces, len := [], 0;
      EndOfPieces([], 0);
      return true;
    }

    /** Drain the queue as one byte string. */
    method TakeBytes() returns (b: Bytes)
      requires Valid()
      modifies this
      ensures b == old(Queued()) && Valid() && Queued() == []
    {
      var ps, tail := pieces, chunk;
      pieces, chunk, len := [], [], 0;
      if ps == [] {
        assert Flat(ps) + tail == tail;
        return tail;
      }
      if |ps| == 1 && tail == [] {
        assert ps == [] + [ps[0]];
        FlatAppend([], ps[0]);
        return ps[0].b;
      }
      b := [];
      for i := 0 to |ps|
        invariant Valid() && Queued() == []
        invariant b == Flat(ps[..i])
      {
        assert ps[..i + 1] == ps[..i] + [ps[i]];
        FlatAppend(ps[..i], ps[i]);
        b := b + ps[i].b;
      }
      assert ps[..|ps|] == ps;
      b := b + tail;
    }
  }

  lemma StopsBefore(ps: seq<Piece>, idx: nat, stop: nat)
    requires idx <= stop <= |ps| && (stop < |ps| ==> StuckAt(ps, stop))
    ensures |Flat(ps[stop..])| <= |Flat(ps[Reach(ps, idx)..])|
  {
    if stop < |ps| {
      NothingBeyondStuck(ps, idx, stop);
    }
  }

  /** With inline limit 0, `MAX_IOV` empty bodies in front of a byte are never flushed, not even
      to a sink that takes all it is offered. */
  method EmptyBodiesStall() returns (ghost queued: Bytes, w: Sink, ok: bool)
    ensures queued == [7] && w.fair && !ok
  {
    var out := new FrameWriter(0);
    w := new Sink(true);
    for i := 0 to MAX_IOV
      invariant fresh(out) && out.Valid() && out.inlineLimit == 0 && out.chunk == []
      invariant |out.pieces| == i && forall k | 0 <= k < i :: out.pieces[k].b == []
      invariant out.Queued() == []
    {
      out.PutBytes([]);
    }
    out.PutBytes([7]);
    queued := out.Queued();
    assert StuckAt(out.Spilled(), 0);
    FlushableUnlessStuck(out.Spilled());
    ok := out.Flush(w);
  }

  lemma FlatPrefix(ps: seq<Piece>, i: nat)
    requires i < |ps|
    ensures Flat(ps) == Flat(ps[..i]) + ps[i].b + Flat(ps[i + 1..])
  {
    hide Flat;
    var a, p, c := ps[..i], ps[i], ps[i + 1..];
    assert ps == (a + [p]) + c;
    FlatSplit(a + [p], c);
    assert Flat(ps) == Flat(a + [p]) + Flat(c);
    FlatAppend(a, p);
    assert Flat(a + [p]) == Flat(a) + p.b;
  }

  /** Patching the placeholder in front of a body makes it that body's own header. */
  lemma OverwriteIsFrame(before: Bytes, tag: byte, body: Bytes)
    ensures var q := before + Header(tag, 0) + body;
      Overwrite(q, |before| + 1, U32(|q| - |before| - HEADER_LEN)) == before + Encode(Frame(tag, body))
  {
    var q := before + Header(tag, 0) + body;
    assert q[..|before| + 1] == before + [tag];
    assert q[|before| + HEADER_LEN..] == body;
    assert before + [tag] + U32(|body|) + body == before + Encode(Frame(tag, body));
  }
}
