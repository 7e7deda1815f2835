/** The TypeScript client's frame reader: chunks are parsed in place while they hold whole
    frames, and only a trailing partial frame moves to a buffer that is compacted or grown. */
module TsReader {
  import opened Base
  import opened Wire
  import opened FrameIO
  import opened RingHash

  /** `slice` on a byte array: negative positions count from the end, both are clamped. */
  function Slice(b: Bytes, from: int, to: int): Bytes {
    var n := |b|;
    var lo := Clamp(if from < 0 then from + n else from, n);
    var hi := Clamp(if to < 0 then to + n else to, n);
    if lo < hi then b[lo..hi] else []
  }

  function Clamp(x: int, n: nat): nat {
    if x < 0 then 0 else if x > n then n else x
  }

  /** The body length as the client reads it: the four bytes or-ed into a signed integer. */
  function SignedLen(b: Bytes): int32
    requires |b| >= HEADER_LEN
  {
    JsBlock(b[1..HEADER_LEN])
  }

  /** The signed length is the true one exactly below 2^31; from there on it is negative. */
  lemma SignedLenIsLen(b: Bytes)
    requires |b| >= HEADER_LEN
    ensures HeaderLen(b) < HALF ==> SignedLen(b) == HeaderLen(b)
    ensures HeaderLen(b) >= HALF ==> SignedLen(b) == HeaderLen(b) - W < 0
  {
    hide JsBlock;
    BlockAgrees(b[1..HEADER_LEN]);
  }

  /** The header at the head of the input, if it is there, announces less than 2^31 bytes. */
  predicate Sane(b: Bytes) {
    |b| >= HEADER_LEN ==> HeaderLen(b) < HALF
  }

  datatype Cut = Wait | Refuse(len: nat) | Take(frame: Frame, next: int)

  /** The frame at `s` of `b`, whose input ends at `e`: the signed length is checked against
      the limit, then against the bytes there are, and the body sliced out. */
  function CutAt(b: Bytes, s: nat, e: nat, maxFrame: nat): Cut
    requires s <= e <= |b|
  {
    if e - s < HEADER_LEN then Wait
    else
      var len := SignedLen(b[s..e]);
      if len > maxFrame then Refuse(len)
      else if e - s < HEADER_LEN + len then Wait
      else Take(Frame(b[s], Slice(b, s + HEADER_LEN, s + HEADER_LEN + len)), s + HEADER_LEN + len)
  }

  predicate Same(c: Cut, h: Read) {
    match c
    case Wait => h == More
    case Refuse(len) => h == TooBig(len)
    case Take(f, _) => h == Got(f)
  }

  /** Cutting finds what the byte string itself holds next, and goes on right behind it,
      if and only if the header is sane; any other header passes for a frame. */
  lemma CutIsHead(b: Bytes, s: nat, e: nat, maxFrame: nat)
    requires s <= e <= |b|
    ensures Sane(b[s..e]) ==> Same(CutAt(b, s, e, maxFrame), Head(b[s..e], maxFrame))
    ensures Sane(b[s..e]) && CutAt(b, s, e, maxFrame).Take? ==>
              var n := CutAt(b, s, e, maxFrame).next; s <= n <= e && b[n..e] == Rest(b[s..e], maxFrame)
    ensures !Sane(b[s..e]) ==> CutAt(b, s, e, maxFrame).Take?
    ensures maxFrame < HALF ==> (Same(CutAt(b, s, e, maxFrame), Head(b[s..e], maxFrame)) <==> Sane(b[s..e]))
  {
    hide SignedLen;
    var p := b[s..e];
    if |p| >= HEADER_LEN {
      SignedLenIsLen(p);
      var len := SignedLen(p);
      if Sane(p) && HEADER_LEN + len <= |p| {
        assert p[HEADER_LEN..HEADER_LEN + len] == b[s + HEADER_LEN..s + HEADER_LEN + len];
      }
    }
  }

  /** What a header of 2^31 bytes or more is taken for: a frame that ends `2^32 - len` bytes
      before its own body begins. It is empty, unless that end lies before the start of the
      array: then it counts from the array's end, and the body is what lies up to there. */
  lemma HugeLengthTakes(b: Bytes, s: nat, e: nat, maxFrame: nat)
    requires s <= e <= |b| && !Sane(b[s..e])
    ensures var next := s + HEADER_LEN + HeaderLen(b[s..e]) - W;
            CutAt(b, s, e, maxFrame) == Take(Frame(b[s], if next < 0 && |b| + next > s + HEADER_LEN
                                                         then b[s + HEADER_LEN..|b| + next] else []), next)
  {
    hide SignedLen;
    SignedLenIsLen(b[s..e]);
  }

  /** A header announcing 2^32 - 1 bytes, over every limit, is yielded as an empty frame, and
      the reader goes on in the middle of that header. */
  lemma HugeLengthPassesForAFrame(tag: byte, maxFrame: nat)
    requires maxFrame < HALF
    ensures var b := [tag, 255, 255, 255, 255];
            Head(b, maxFrame).TooBig? && CutAt(b, 0, 5, maxFrame) == Take(Frame(tag, []), 4)
  {
    hide SignedLen;
    var b: Bytes := [tag, 255, 255, 255, 255];
    assert b[0..5] == b && b[1..HEADER_LEN] == [255, 255, 255, 255];
    SignedLenIsLen(b);
    assert HeaderLen(b) == 0xFFFF_FFFF;
  }

  /** `set` on a byte array: the bytes of `src` land at `at`, what stands before stays. */
  method SetAt(dst: array<byte>, at: nat, src: Bytes)
    requires at + |src| <= dst.Length
    modifies dst
    ensures dst[..at] == old(dst[..at]) && dst[at..at + |src|] == src
  {
    for i := 0 to |src|
      invariant dst[..at] == old(dst[..at])
      invariant dst[at..at + i] == src[..i]
    {
      dst[at + i] := src[i];
      assert dst[at..at + i + 1] == src[..i] + [src[i]];
    }
  }

  /** `copyWithin` to the front of the array, the ranges overlapping or not. */
  method CopyWithin(a: array<byte>, start: nat, end: nat)
    requires start <= end <= a.Length
    modifies a
    ensures a[..end - start] == old(a[start..end])
  {
    ghost var all := a[..];
    for i := 0 to end - start
      invariant a[..i] == all[start..start + i]
      invariant forall j | start + i <= j < end :: a[j] == all[j]
    {
      a[i] := a[start + i];
    }
    assert all[start..end] == old(a[start..end]);
  }

  class Reader {
    var buf: array<byte>
    var start: int
    var end: int
    var direct: Option<Bytes>
    var dpos: int
    const maxFrame: nat
    /** Everything pushed so far, and every frame yielded so far. */
    ghost var total: Bytes
    ghost var yielded: seq<Frame>

    ghost predicate Shaped()
      reads this
    {
      && 0 <= start <= end <= buf.Length
      && (direct.Some? ==> start == end && 0 <= dpos <= |direct.value|)
    }

    /** The input not yet yielded: what the buffer holds, or the rest of the chunk in place. */
    ghost function Pending(): Bytes
      requires Shaped()
      reads this, buf
    {
      buf[start..end] + if direct.Some? then direct.value[dpos..] else []
    }

    ghost predicate Valid()
      reads this, buf
    {
      && Shaped()
      && total == EncodeAll(yielded) + Pending()
      && forall f | f in yielded :: Within(f, maxFrame)
    }

    constructor (maxFrame: nat)
      ensures Valid() && Pending() == [] && total == [] && yielded == [] && this.maxFrame == maxFrame && fresh(buf)
    {
      buf := new byte[0x1_0000];
      start, end, direct, dpos, this.maxFrame := 0, 0, None, 0, maxFrame;
      total, yielded := [], [];
    }

    /** Append to the buffer: in place if it fits, else after moving the live bytes to the
        front, else in an array of at least twice the size. */
    method CopyIn(chunk: Bytes)
      requires Shaped()
      modifies this`buf, this`start, this`end, buf
      ensures 0 <= start <= end <= buf.Length && (buf == old(buf) || fresh(buf))
      ensures buf[start..end] == old(buf[start..end]) + chunk
    {
      if end + |chunk| > buf.Length {
        MakeRoom(|chunk|);
      }
      var at := end;
      ghost var kept := buf[..at];
      assert kept[start..] == old(buf[start..end]);
      SetAt(buf, at, chunk);
      end := at + |chunk|;
      assert buf[start..end] == buf[..at][start..] + buf[at..end];
    }

    method MakeRoom(n: nat)
      requires Shaped()
      modifies this`buf, this`start, this`end, buf
      ensures 0 <= start <= end && end + n <= buf.Length
      ensures buf[start..end] == old(buf[start..end]) && (buf == old(buf) || fresh(buf))
    {
      var live := end - start;
      if live + n <= buf.Length {
        CopyWithin(buf, start, end);
      } else {
        var size := if 2 * buf.Length < live + n then live + n else 2 * buf.Length;
        var grown := new byte[size];
        SetAt(grown, 0, buf[start..end]);
        buf := grown;
      }
      start, end := 0, live;
    }

    /** Append `chunk`; parsed in place if nothing is waiting in the buffer. */
    method Push(chunk: Bytes)
      requires Valid()
      modifies this, buf
      ensures Valid() && (buf == old(buf) || fresh(buf))
      ensures Pending() == old(Pending()) + chunk && total == old(total) + chunk && yielded == old(yielded)
    {
      hide EncodeAll, Within;
      ghost var before := Pending();
      assert EncodeAll(yielded) + before + chunk == EncodeAll(yielded) + (before + chunk);
      if direct.Some? {
        var tail := direct.value[dpos..];
        CopyIn(tail);
        direct := None;
        assert buf[start..end] == before;
      }
      total := total + chunk;
      if end == start {
        direct, dpos := Some(chunk), 0;
        assert Pending() == before + chunk;
        return;
      }
      CopyIn(chunk);
    }

    /** What one call owes its caller: with a sane header, the frame or the refusal the byte
        string itself holds next, the input advanced past it, and a null only once every
        complete frame pushed so far has been yielded. A header that is not sane passes for a
        frame although the limit forbids it. */
    ghost predicate Delivers(r: Read, pending: Bytes, before: seq<Frame>)
      reads this, buf
    {
      && (maxFrame < HALF ==> (r == Head(pending, maxFrame) <==> Sane(pending)))
      && (Sane(pending) ==>
            && Valid() && Pending() == Rest(pending, maxFrame) && r == Head(pending, maxFrame)
            && yielded == (if r.Got? then before + [r.frame] else before)
            && (r.More? ==> FramesOf(total, maxFrame) == yielded))
    }

    method Next() returns (r: Read)
      requires Valid()
      modifies this, buf
      ensures (buf == old(buf) || fresh(buf)) && total == old(total)
      ensures Delivers(r, old(Pending()), old(yielded))
    {
      if direct.Some? {
        r := NextDirect();
      } else {
        r := NextBuffered();
      }
    }

    /** From the chunk in place: a whole frame is sliced out of it, a partial one moves over. A
        chunk that is used up is let go. */
    method NextDirect() returns (r: Read)
      requires Valid() && direct.Some?
      modifies this, buf
      ensures (buf == old(buf) || fresh(buf)) && total == old(total)
      ensures Delivers(r, old(Pending()), old(yielded))
      ensures r.Got? && direct.Some? ==> dpos != |direct.value|
    {
      hide CutAt, Head, FramesOf, EncodeAll, Within, Sane;
      ghost var pending := Pending();
      var d := direct.value;
      assert pending == d[dpos..|d|];
      CutIsHead(d, dpos, |d|, maxFrame);
      match CutAt(d, dpos, |d|, maxFrame) {
        case Refuse(len) => r := TooBig(len);
        case Take(f, next) =>
          r := Got(f);
          dpos := next;
          if dpos == |d| {
            direct := None;
          }
          if Sane(pending) {
            Yield(f, pending);
          }
        case Wait =>
          r := More;
          CopyIn(d[dpos..]);
          direct := None;
          assert Pending() == pending;
          Drained();
      }
    }

    /** From the accumulation buffer, which is rewound once it is empty. */
    method NextBuffered() returns (r: Read)
      requires Valid() && direct.None?
      modifies this
      ensures buf == old(buf) && total == old(total)
      ensures Delivers(r, old(Pending()), old(yielded))
      ensures r.Got? && start == end ==> start == 0
    {
      hide CutAt, Head, FramesOf, EncodeAll, Within, Sane;
      ghost var pending := Pending();
      var all := buf[..];
      assert pending == all[start..end];
      CutIsHead(all, start, end, maxFrame);
      match CutAt(all, start, end, maxFrame) {
        case Wait =>
          r := More;
          Drained();
        case Refuse(len) => r := TooBig(len);
        case Take(f, next) =>
          r := Got(f);
          start := next;
          if start == end {
            start, end := 0, 0;
          }
          if Sane(pending) {
            Yield(f, pending);
          }
      }
    }

    /** Record a yielded frame. */
    ghost method Yield(f: Frame, pending: Bytes)
      requires Shaped() && total == EncodeAll(yielded) + pending && forall g | g in yielded :: Within(g, maxFrame)
      requires Head(pending, maxFrame) == Got(f) && Pending() == Rest(pending, maxFrame)
      modifies this`yielded
      ensures Valid() && yielded == old(yielded) + [f]
    {
      hide Head, Rest, Encode, Within;
      HeadIsEncoded(pending, maxFrame);
      EncodeAllSplit(yielded, [f]);
      assert EncodeAll([f]) == Encode(f);
      yielded := yielded + [f];
    }

    /** With no frame at the head of what is pending, all frames have been yielded. */
    lemma Drained()
      requires Valid() && Head(Pending(), maxFrame).More?
      ensures FramesOf(total, maxFrame) == yielded
    {
      FramesOfEncoded(yielded, Pending(), maxFrame);
    }
  }
}
