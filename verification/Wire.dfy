/** The wire format: little-endian integers, frames, SET bodies and batch bodies. */
module Wire {
  import opened Base

  const HEADER_LEN := 5
  const U32_RANGE := 0x1_0000_0000
  const MAX_FRAME := 0x400_0000
  const MAX_ITEMS := 0x1_0000

  // Request tags.
  const GET: byte := 1
  const SET: byte := 2
  const DEL: byte := 3
  const AUTH: byte := 4
  const PING: byte := 5
  const BATCH: byte := 6

  // Response tags.
  const OK: byte := 0
  const BAD_REQUEST: byte := 1
  const UNKNOWN_OP: byte := 2
  const TOO_LARGE: byte := 3
  const UNAUTHORIZED: byte := 4
  const NOT_FOUND: byte := 5

  datatype DecodeError = Truncated(needed: nat) | Trailing(left: nat) | TooMany(count: nat)

  datatype Result<+T> = Ok(value: T) | Err(error: DecodeError)

  /** A tag and a body: a request, a response, or one item inside a batch. */
  datatype Frame = Frame(tag: byte, body: Bytes)

  /** The low 32 bits of `n`, least significant byte first. */
  function U32(n: nat): (b: Bytes)
    ensures |b| == 4
  {
    [n % 256, n / 0x100 % 256, n / 0x1_0000 % 256, n / 0x100_0000 % 256]
  }

  function FromU32(b: Bytes): (n: nat)
    requires |b| == 4
    ensures n < U32_RANGE
  {
    b[0] as int + 0x100 * b[1] as int + 0x1_0000 * b[2] as int + 0x100_0000 * b[3] as int
  }

  lemma U32RoundTrip(n: nat)
    requires n < U32_RANGE
    ensures FromU32(U32(n)) == n
  {
    var a, b, c := n / 0x100, n / 0x1_0000, n / 0x100_0000;
    assert b == a / 0x100 && c == b / 0x100;
    assert n == 0x100 * a + n % 256;
    assert a == 0x100 * b + a % 256;
    assert b == 0x100 * c + b % 256;
    assert c % 256 == c;
  }

  lemma FromU32RoundTrip(b: Bytes)
    requires |b| == 4
    ensures U32(FromU32(b)) == b
  {
    var n := FromU32(b);
    var n1, n2, n3 := n / 0x100, n / 0x1_0000, n / 0x100_0000;
    var b1, b2, b3 := b[1] as int, b[2] as int, b[3] as int;
    assert n1 == b1 + 0x100 * b2 + 0x1_0000 * b3 && n % 256 == b[0];
    assert n2 == b2 + 0x100 * b3 && n1 % 256 == b1;
    assert n3 == b3 && n2 % 256 == b2;
  }

  function Header(tag: byte, len: nat): (h: Bytes)
    ensures |h| == HEADER_LEN
  {
    [tag] + U32(len)
  }

  function HeaderLen(b: Bytes): (n: nat)
    requires |b| >= HEADER_LEN
    ensures n < U32_RANGE
  {
    FromU32(b[1..HEADER_LEN])
  }

  function Encode(f: Frame): Bytes {
    Header(f.tag, |f.body|) + f.body
  }

  function EncodeAll(fs: seq<Frame>): Bytes {
    if fs == [] then [] else Encode(fs[0]) + EncodeAll(fs[1..])
  }

  predicate Sized(f: Frame) {
    |f.body| < U32_RANGE
  }

  lemma {:induction false} EncodeAllSplit(a: seq<Frame>, b: seq<Frame>)
    ensures EncodeAll(a + b) == EncodeAll(a) + EncodeAll(b)
  {
    if a == [] {
      assert a + b == b;
    } else {
      EncodeAllSplit(a[1..], b);
      assert (a + b)[1..] == a[1..] + b && (a + b)[0] == a[0];
      assert Encode(a[0]) + (EncodeAll(a[1..]) + EncodeAll(b)) == Encode(a[0]) + EncodeAll(a[1..]) + EncodeAll(b);
    }
  }

  lemma EncodeAllOne(f: Frame)
    ensures EncodeAll([f]) == Encode(f)
  {
    assert [f][1..] == [];
    assert Encode(f) + [] == Encode(f);
  }

  /** A header's length reads back from any bytes that start with it. */
  lemma HeaderReadsBack(tag: byte, len: nat, rest: Bytes)
    requires len < U32_RANGE
    ensures |Header(tag, len) + rest| >= HEADER_LEN && (Header(tag, len) + rest)[0] == tag
    ensures HeaderLen(Header(tag, len) + rest) == len
    ensures (Header(tag, len) + rest)[HEADER_LEN..] == rest
  {
    var b := Header(tag, len) + rest;
    assert b[1..HEADER_LEN] == U32(len);
    U32RoundTrip(len);
  }

  /** Bytes that hold a whole frame start with the encoding of exactly that frame. */
  lemma HeaderWritesBack(b: Bytes)
    requires |b| >= HEADER_LEN && |b| >= HEADER_LEN + HeaderLen(b)
    ensures var n := HeaderLen(b);
      b == Encode(Frame(b[0], b[HEADER_LEN..HEADER_LEN + n])) + b[HEADER_LEN + n..]
  {
    FromU32RoundTrip(b[1..HEADER_LEN]);
    var n := HeaderLen(b);
    assert b[..HEADER_LEN] == [b[0]] + b[1..HEADER_LEN];
    assert b == b[..HEADER_LEN] + b[HEADER_LEN..HEADER_LEN + n] + b[HEADER_LEN + n..];
  }

  // ---- splitting ----

  function SplitCount(body: Bytes): (r: Result<(nat, Bytes)>)
    ensures r.Ok? <==> |body| >= 4
    ensures r.Ok? ==> body == U32(r.value.0) + r.value.1 && r.value.0 < U32_RANGE
    ensures r.Err? ==> r.error == Truncated(4 - |body|)
  {
    if |body| < 4 then Err(Truncated(4 - |body|))
    else
      FromU32RoundTrip(body[..4]);
      Ok((FromU32(body[..4]), body[4..]))
  }

  function SplitLen(b: Bytes, len: nat): (r: Result<(Bytes, Bytes)>)
    ensures r.Ok? <==> |b| >= len
    ensures r.Ok? ==> b == r.value.0 + r.value.1 && |r.value.0| == len
    ensures r.Err? ==> r.error == Truncated(len - |b|)
  {
    if |b| < len then Err(Truncated(len - |b|)) else Ok((b[..len], b[len..]))
  }

  // ---- SET bodies ----

  function EncodeSet(key: Bytes, value: Bytes): Bytes {
    U32(|key|) + key + value
  }

  /** The key and value of a SET body. */
  function SetBody(body: Bytes): (r: Result<(Bytes, Bytes)>)
    ensures r.Ok? ==> body == EncodeSet(r.value.0, r.value.1)
  {
    var count := SplitCount(body);
    if count.Err? then Err(count.error)
    else
      var (klen, rest) := count.value;
      var split := SplitLen(rest, klen);
      if split.Err? then Err(split.error) else Ok((split.value.0, split.value.1))
  }

  /** Every key and value that fit a body read back from it. */
  lemma SetRoundTrip(key: Bytes, value: Bytes)
    requires |key| < U32_RANGE
    ensures SetBody(EncodeSet(key, value)) == Ok((key, value))
  {
    var b := EncodeSet(key, value);
    assert b[..4] == U32(|key|);
    assert b[4..] == key + value;
    U32RoundTrip(|key|);
    assert (key + value)[..|key|] == key && (key + value)[|key|..] == value;
  }

  // ---- batch bodies ----

  function EncodeBatch(fs: seq<Frame>): Bytes {
    U32(|fs|) + EncodeAll(fs)
  }

  /** The first `n` nested frames of `rest`, which must be all of it. */
  function Items(rest: Bytes, n: nat): (r: Result<seq<Frame>>)
    ensures r.Ok? ==> rest == EncodeAll(r.value) && |r.value| == n && forall f | f in r.value :: Sized(f)
  {
    if n == 0 then
      if rest == [] then Ok([]) else Err(Trailing(|rest|))
    else if |rest| < HEADER_LEN then Err(Truncated(HEADER_LEN - |rest|))
    else
      var len := HeaderLen(rest);
      if |rest| < HEADER_LEN + len then Err(Truncated(HEADER_LEN + len - |rest|))
      else
        HeaderWritesBack(rest);
        var f := Frame(rest[0], rest[HEADER_LEN..HEADER_LEN + len]);
        var tail := Items(rest[HEADER_LEN + len..], n - 1);
        if tail.Err? then tail else Ok([f] + tail.value)
  }

  /** The frames of a batch body, or why it is malformed. */
  function DecodeBatch(body: Bytes): (r: Result<seq<Frame>>)
    ensures r.Ok? ==> body == EncodeBatch(r.value) && |r.value| <= MAX_ITEMS && forall f | f in r.value :: Sized(f)
  {
    var count := SplitCount(body);
    if count.Err? then Err(count.error)
    else if count.value.0 > MAX_ITEMS then Err(TooMany(count.value.0))
    else Items(count.value.1, count.value.0)
  }

  lemma ItemsCons(f: Frame, rest: Bytes, n: nat)
    requires Sized(f)
    ensures Items(Encode(f) + rest, n + 1) == if Items(rest, n).Err? then Items(rest, n) else Ok([f] + Items(rest, n).value)
  {
    var b := Encode(f) + rest;
    assert b == Header(f.tag, |f.body|) + (f.body + rest);
    HeaderReadsBack(f.tag, |f.body|, f.body + rest);
    assert b[HEADER_LEN..HEADER_LEN + |f.body|] == f.body;
    assert b[HEADER_LEN + |f.body|..] == rest;
  }

  lemma {:induction false} ItemsRoundTrip(fs: seq<Frame>)
    requires forall f | f in fs :: Sized(f)
    ensures Items(EncodeAll(fs), |fs|) == Ok(fs)
  {
    hide Encode;
    if fs != [] {
      assert fs[0] in fs && forall f | f in fs[1..] :: f in fs;
      ItemsRoundTrip(fs[1..]);
      ItemsCons(fs[0], EncodeAll(fs[1..]), |fs| - 1);
      assert [fs[0]] + fs[1..] == fs;
    }
  }

  /** Every list of items within the limits decodes from its encoding to itself. */
  lemma BatchRoundTrip(fs: seq<Frame>)
    requires |fs| <= MAX_ITEMS && forall f | f in fs :: Sized(f)
    ensures DecodeBatch(EncodeBatch(fs)) == Ok(fs)
  {
    var b := EncodeBatch(fs);
    assert b[..4] == U32(|fs|) && b[4..] == EncodeAll(fs);
    U32RoundTrip(|fs|);
    ItemsRoundTrip(fs);
  }

  /** Every accepted body is the encoding of exactly one list of items. */
  lemma AcceptedBodyIsOneEncoding(body: Bytes, fs: seq<Frame>)
    requires DecodeBatch(body).Ok?
    requires |fs| <= MAX_ITEMS && (forall f | f in fs :: Sized(f)) && body == EncodeBatch(fs)
    ensures fs == DecodeBatch(body).value
  {
    BatchRoundTrip(fs);
  }
}
