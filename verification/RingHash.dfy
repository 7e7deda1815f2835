/** MurmurHash3, 32-bit x86 variant, seed 0, as the Rust client computes it on unsigned words
    and as the TypeScript client computes it on signed 32-bit integers. */
module RingHash {
  import opened Base
  import opened Bits
  import opened Wire

  const W := 0x1_0000_0000
  const HALF := 0x8000_0000
  const C1 := 0xcc9e_2d51
  const C2 := 0x1b87_3593

  type word = n: int | 0 <= n < 0x1_0000_0000

  // ---- unsigned words ----

  function Mul(a: word, b: word): word {
    (a * b) % W
  }

  /** The bits of `a` moved up by `r`, the ones that fall off the word dropped. */
  function Shl(a: nat, r: nat): nat {
    if r == 0 then a else 2 * Shl(a, r - 1)
  }

  function XorW(a: word, b: word): word {
    Pow32();
    XorBound(a, b, 32);
    Xor(a, b)
  }

  lemma Pow32()
    ensures Pow2(32) == W
  {
    assert Pow2(8) == 256;
    assert Pow2(16) == 0x1_0000;
    assert Pow2(24) == 0x100_0000;
  }

  lemma {:induction false} XorBound(a: nat, b: nat, k: nat)
    requires a < Pow2(k) && b < Pow2(k)
    ensures Xor(a, b) < Pow2(k)
  {
    if k > 0 {
      XorBound(a / 2, b / 2, k - 1);
      XorStep(a, b);
    }
  }

  lemma {:induction false} OrBound(a: nat, b: nat, k: nat)
    requires a < Pow2(k) && b < Pow2(k)
    ensures Or(a, b) < Pow2(k)
  {
    if k > 0 {
      OrBound(a / 2, b / 2, k - 1);
    }
  }

  /** `a` is a multiple of `2^r`. */
  predicate LowZero(a: nat, r: nat) {
    r == 0 || (a % 2 == 0 && LowZero(a / 2, r - 1))
  }

  /** Combining bits that do not overlap is adding them. */
  lemma {:induction false} OrDisjoint(a: nat, b: nat, r: nat)
    requires LowZero(a, r) && b < Pow2(r)
    ensures Or(a, b) == a + b
  {
    if r == 0 {
      OrZero(a);
    } else {
      OrDisjoint(a / 2, b / 2, r - 1);
    }
  }

  lemma {:induction false} OrZero(a: nat)
    ensures Or(a, 0) == a
  {
    if a > 0 {
      OrZero(a / 2);
    }
  }

  lemma {:induction false} OrCommutes(a: nat, b: nat)
    ensures Or(a, b) == Or(b, a)
    decreases a + b
  {
    if a > 0 || b > 0 {
      OrCommutes(a / 2, b / 2);
    }
  }

  lemma {:induction false} ShlWrapped(a: nat, r: nat, k: nat)
    requires r <= k
    ensures LowZero(Shl(a, r) % Pow2(k), r)
  {
    if r > 0 {
      ShlWrapped(a, r - 1, k - 1);
      DoubleMod(Shl(a, r - 1), Pow2(k - 1));
    }
  }

  lemma DoubleMod(x: nat, m: nat)
    requires m > 0
    ensures (2 * x) % (2 * m) == 2 * (x % m)
  {
    var q, r := x / m, x % m;
    assert x == q * m + r;
    assert 2 * x == q * (2 * m) + 2 * r;
    ModUnique(2 * x, 2 * m, q, 2 * r);
  }

  lemma ShrWithin(a: word, r: nat)
    requires r <= 32
    ensures Shr(a, 32 - r) < Pow2(r)
  {
    Pow32();
    ShrBound(a, r, 32 - r);
  }

  lemma {:induction false} ShrShrinks(a: nat, r: nat)
    ensures Shr(a, r) <= a
  {
    if r > 0 {
      ShrShrinks(a / 2, r - 1);
    }
  }

  function ShrW(a: word, r: nat): word {
    ShrShrinks(a, r);
    Shr(a, r)
  }

  /** Rotation to the left: the bits that fall off the top come back at the bottom. */
  function Rotl(a: word, r: nat): word
    requires r <= 32
  {
    RotlIsOr(a, r);
    Shl(a, r) % W + Shr(a, 32 - r)
  }

  lemma RotlIsOr(a: word, r: nat)
    requires r <= 32
    ensures Or(Shl(a, r) % W, Shr(a, 32 - r)) == Shl(a, r) % W + Shr(a, 32 - r) < W
  {
    hide Shl, Shr, Or, LowZero, Pow2;
    Pow32();
    ShlWrapped(a, r, 32);
    ShrWithin(a, r);
    OrDisjoint(Shl(a, r) % W, Shr(a, 32 - r), r);
    ShrShrinks(a, 32 - r);
    OrBound(Shl(a, r) % W, Shr(a, 32 - r), 32);
  }

  function Scramble(k: word): word {
    Mul(Rotl(Mul(k, C1), 15), C2)
  }

  function Mix(h: word, k: word): word {
    (Mul(Rotl(XorW(h, Scramble(k)), 13), 5) + 0xe654_6b64) % W
  }

  function Fmix(h: word): word {
    var a := Mul(XorW(h, ShrW(h, 16)), 0x85eb_ca6b);
    var b := Mul(XorW(a, ShrW(a, 13)), 0xc2b2_ae35);
    XorW(b, ShrW(b, 16))
  }

  /** The state after the first `n` whole blocks. */
  function Blocks(b: Bytes, n: nat): word
    requires 4 * n <= |b|
  {
    if n == 0 then 0 else Mix(Blocks(b, n - 1), FromU32(b[4 * (n - 1)..4 * n]))
  }

  /** Up to three bytes as a little-endian number. */
  function TailWord(t: Bytes): (w: nat)
    requires |t| <= 3
    ensures w < 0x100_0000 && (|t| <= 2 ==> w < 0x1_0000) && (|t| <= 1 ==> w < 0x100) && (t == [] ==> w == 0)
  {
    if t == [] then 0 else t[0] as int + 256 * TailWord(t[1..])
  }

  function Murmur(b: Bytes): word {
    var n := |b| / 4;
    var tail := b[4 * n..];
    var h := Blocks(b, n);
    var h' := if tail == [] then h else XorW(h, Scramble(TailWord(tail)));
    Fmix(XorW(h', |b| % W))
  }

  // ---- the Rust client ----

  /** The hash as the Rust client computes it, block by block. */
  method RustHash(bytes: Bytes) returns (r: word)
    ensures r == Murmur(bytes)
  {
    hide Mix, Fmix, Scramble, XorW;
    var h: word := 0;
    var n := |bytes| / 4;
    for i := 0 to n
      invariant h == Blocks(bytes, i)
    {
      h := Mix(h, FromU32(bytes[4 * i..4 * (i + 1)]));
    }
    var tail := bytes[4 * n..];
    if tail != [] {
      var k := RustTail(tail);
      h := XorW(h, Scramble(k));
    }
    return Fmix(XorW(h, |bytes| % W));
  }

  /** The tail word, each byte moved to its place and or-ed in. */
  method RustTail(tail: Bytes) returns (k: word)
    requires |tail| <= 3
    ensures k == TailWord(tail)
  {
    k := 0;
    for i := 0 to |tail|
      invariant k == TailWord(tail[..i])
    {
      TailGrows(tail, i);
      k := Or(k, Shl(tail[i], 8 * i));
    }
    assert tail[..|tail|] == tail;
  }

  lemma TailGrows(tail: Bytes, i: nat)
    requires i < |tail| <= 3
    ensures Or(TailWord(tail[..i]), Shl(tail[i], 8 * i)) == TailWord(tail[..i + 1])
  {
    var low, high := TailWord(tail[..i]), Shl(tail[i], 8 * i);
    Powers();
    assert low < Pow2(8 * i);
    ShlLowZero(tail[i], 8 * i);
    OrDisjoint(high, low, 8 * i);
    OrCommutes(high, low);
    TailAppends(tail[..i], tail[i]);
    assert tail[..i] + [tail[i]] == tail[..i + 1];
  }

  lemma {:induction false} ShlLowZero(a: nat, r: nat)
    ensures LowZero(Shl(a, r), r)
  {
    if r > 0 {
      ShlLowZero(a, r - 1);
      hide LowZero;
      var x := Shl(a, r - 1);
      EvenAndHalf(x);
      LowZeroStep(2 * x, r);
    }
  }

  lemma EvenAndHalf(x: nat)
    ensures (2 * x) % 2 == 0 && (2 * x) / 2 == x
  {
  }

  lemma LowZeroStep(a: nat, r: nat)
    requires r > 0 && a % 2 == 0 && LowZero(a / 2, r - 1)
    ensures LowZero(a, r)
  {
  }

  lemma {:induction false} TailAppends(t: Bytes, b: byte)
    requires |t| <= 2
    ensures TailWord(t + [b]) == TailWord(t) + Shl(b, 8 * |t|)
  {
    if t == [] {
      assert t + [b] == [b];
      assert TailWord([b]) == b as int + 256 * TailWord([b][1..]);
    } else {
      TailAppends(t[1..], b);
      assert (t + [b])[1..] == t[1..] + [b];
      ShlByte(b, 8 * (|t| - 1));
    }
  }

  lemma ShlByte(a: nat, r: nat)
    ensures Shl(a, r + 8) == 256 * Shl(a, r)
  {
    assert Shl(a, r + 2) == 4 * Shl(a, r);
    assert Shl(a, r + 4) == 4 * Shl(a, r + 2);
    assert Shl(a, r + 6) == 4 * Shl(a, r + 4);
  }

  // ---- the TypeScript client ----

  type int32 = n: int | -0x8000_0000 <= n < 0x8000_0000

  /** What a number is to a bitwise operator: its value modulo 2^32. */
  function ToU32(x: int): word {
    x % W
  }

  function ToI32(n: word): int32 {
    if n < HALF then n else n - W
  }

  lemma SignRoundTrip(n: word)
    ensures ToU32(ToI32(n)) == n
  {
  }

  function JsXor(a: int, b: int): int32 {
    ToI32(XorW(ToU32(a), ToU32(b)))
  }

  function OrW(a: word, b: word): word {
    Pow32();
    OrBound(a, b, 32);
    Or(a, b)
  }

  function JsOr(a: int, b: int): int32 {
    ToI32(OrW(ToU32(a), ToU32(b)))
  }

  function JsShl(a: int, r: nat): int32 {
    ToI32(Shl(ToU32(a), r) % W)
  }

  function JsShr(a: int, r: nat): word {
    ShrW(ToU32(a), r)
  }

  function Imul(a: int, b: int): int32 {
    ToI32(Mul(ToU32(a), ToU32(b)))
  }

  function JsRotl(x: int, r: nat): int32
    requires r <= 32
  {
    JsOr(JsShl(x, r), JsShr(x, 32 - r))
  }

  function JsScramble(k: int): int32 {
    Imul(JsRotl(Imul(k, C1), 15), C2)
  }

  function JsFmix(h: int): word {
    var a := Imul(JsXor(h, JsShr(h, 16)), 0x85eb_ca6b);
    var b := Imul(JsXor(a, JsShr(a, 13)), 0xc2b2_ae35);
    ToU32(JsXor(b, JsShr(b, 16)))
  }

  /** One round of the block loop. */
  function JsMix(h: int, k: int): int32 {
    ToI32(ToU32(Imul(JsRotl(JsXor(h, JsScramble(k)), 13), 5) + 0xe654_6b64))
  }

  lemma RotlAgrees(x: int, r: nat)
    requires r <= 32
    ensures ToU32(JsRotl(x, r)) == Rotl(ToU32(x), r)
  {
    hide Or, Shl, Shr;
    var a := ToU32(x);
    SignRoundTrip(Shl(a, r) % W);
    RotlIsOr(a, r);
    SignRoundTrip(OrW(Shl(a, r) % W, ShrW(a, 32 - r)));
  }

  lemma XorAgrees(a: int, b: int)
    ensures ToU32(JsXor(a, b)) == XorW(ToU32(a), ToU32(b))
  {
    hide XorW;
    SignRoundTrip(XorW(ToU32(a), ToU32(b)));
  }

  lemma MulAgrees(a: int, b: int)
    ensures ToU32(Imul(a, b)) == Mul(ToU32(a), ToU32(b))
  {
    hide Mul;
    SignRoundTrip(Mul(ToU32(a), ToU32(b)));
  }

  lemma ScrambleAgrees(k: int)
    ensures ToU32(JsScramble(k)) == Scramble(ToU32(k))
  {
    hide Imul, Mul, JsRotl, Rotl;
    MulAgrees(k, C1);
    RotlAgrees(Imul(k, C1), 15);
    MulAgrees(JsRotl(Imul(k, C1), 15), C2);
  }

  lemma SumAgrees(a: int, c: nat)
    ensures ToU32(ToI32(ToU32(a + c))) == (ToU32(a) + c) % W
  {
    SignRoundTrip(ToU32(a + c));
  }

  lemma MixAgrees(h: int, k: int)
    ensures ToU32(JsMix(h, k)) == Mix(ToU32(h), ToU32(k))
  {
    hide Imul, Mul, JsRotl, Rotl, JsScramble, Scramble, JsXor, XorW, ToU32, ToI32;
    ScrambleAgrees(k);
    var x := JsXor(h, JsScramble(k));
    XorAgrees(h, JsScramble(k));
    RotlAgrees(x, 13);
    SmallWord(5);
    MulAgrees(JsRotl(x, 13), 5);
    SumAgrees(Imul(JsRotl(x, 13), 5), 0xe654_6b64);
  }

  lemma SmallWord(n: word)
    ensures ToU32(n) == n
  {
  }

  lemma FmixAgrees(h: int)
    ensures JsFmix(h) == Fmix(ToU32(h))
  {
    hide Imul, Mul, JsXor, XorW, ShrW, ToU32;
    SmallWord(0x85eb_ca6b);
    SmallWord(0xc2b2_ae35);
    XorShiftAgrees(h, 16);
    MulAgrees(JsXor(h, JsShr(h, 16)), 0x85eb_ca6b);
    var a := Imul(JsXor(h, JsShr(h, 16)), 0x85eb_ca6b);
    XorShiftAgrees(a, 13);
    MulAgrees(JsXor(a, JsShr(a, 13)), 0xc2b2_ae35);
    var b := Imul(JsXor(a, JsShr(a, 13)), 0xc2b2_ae35);
    XorShiftAgrees(b, 16);
  }

  lemma XorShiftAgrees(h: int, r: nat)
    ensures ToU32(JsXor(h, JsShr(h, r))) == XorW(ToU32(h), ShrW(ToU32(h), r))
  {
    hide XorW, ShrW, JsXor;
    XorAgrees(h, JsShr(h, r));
    SmallWord(JsShr(h, r));
  }

  /** Four bytes read by shifting and or-ing signed integers are the same little-endian word. */
  function JsBlock(b: Bytes): int32
    requires |b| == 4
  {
    JsOr(JsOr(JsOr(b[0], JsShl(b[1], 8)), JsShl(b[2], 16)), JsShl(b[3], 24))
  }

  lemma BlockAgrees(b: Bytes)
    requires |b| == 4
    ensures ToU32(JsBlock(b)) == FromU32(b)
  {
    hide JsOr, JsShl, ToU32, Shl;
    SmallWord(b[0]);
    PlaceAgrees(b[0], b[1], 8);
    PlaceAgrees(JsOr(b[0], JsShl(b[1], 8)), b[2], 16);
    PlaceAgrees(JsOr(JsOr(b[0], JsShl(b[1], 8)), JsShl(b[2], 16)), b[3], 24);
    Powers();
    ShlLiteral(b[1], b[2], b[3]);
  }

  lemma Powers()
    ensures Pow2(8) == 0x100 && Pow2(16) == 0x1_0000 && Pow2(24) == 0x100_0000
  {
    assert Pow2(8) == 0x100;
    assert Pow2(16) == 0x1_0000;
  }

  lemma ShlLiteral(a: nat, b: nat, c: nat)
    ensures Shl(a, 8) == 0x100 * a && Shl(b, 16) == 0x1_0000 * b && Shl(c, 24) == 0x100_0000 * c
  {
    ShlByte(a, 0);
    ShlByte(b, 0);
    ShlByte(b, 8);
    ShlByte(c, 0);
    ShlByte(c, 8);
    ShlByte(c, 16);
  }

  /** Or-ing a byte in above `r` filled bits adds it there. */
  lemma PlaceAgrees(acc: int, b: byte, r: nat)
    requires r <= 24 && ToU32(acc) < Pow2(r)
    ensures ToU32(JsOr(acc, JsShl(b, r))) == ToU32(acc) + Shl(b, r) < Pow2(r + 8)
  {
    hide Or, Shl, LowZero, Pow2;
    var low, high := ToU32(acc), Shl(b, r);
    ShlByteBound(b, r);
    Pow2Grows(r + 8, 32);
    Pow32();
    SmallWord(b);
    SmallWord(high);
    SignRoundTrip(high);
    ShlLowZero(b, r);
    OrDisjoint(high, low, r);
    OrCommutes(high, low);
    SignRoundTrip(OrW(low, high));
  }

  /** A byte moved up by `r`, with `r` bits of room below it, ends below bit `r + 8`. */
  lemma {:induction false} ShlByteBound(b: byte, r: nat)
    ensures Shl(b, r) + Pow2(r) <= Pow2(r + 8)
  {
    if r == 0 {
      assert Pow2(8) == 0x100;
    } else {
      ShlByteBound(b, r - 1);
    }
  }

  /** The hash as the TypeScript client computes it. */
  method TsHash(bytes: Bytes) returns (r: word)
    ensures r == Murmur(bytes)
  {
    hide Mix, JsMix, Fmix, JsFmix, Scramble, JsScramble, XorW, JsXor, ToU32, JsBlock;
    var n := |bytes|;
    var blocks := n - n % 4;
    var h: int32 := 0;
    var i := 0;
    SmallWord(0);
    while i < blocks
      invariant 0 <= i <= blocks && i % 4 == 0
      invariant ToU32(h) == Blocks(bytes, i / 4)
    {
      var k := JsBlock(bytes[i..i + 4]);
      BlockAgrees(bytes[i..i + 4]);
      MixAgrees(h, k);
      assert 4 * (i / 4) == i && (i + 4) / 4 == i / 4 + 1;
      h := JsMix(h, k);
      i := i + 4;
    }
    assert blocks == 4 * (n / 4) && blocks / 4 == n / 4;
    if blocks != n {
      var k := TsTail(bytes[blocks..]);
      SmallWord(k);
      ScrambleAgrees(k);
      XorAgrees(h, JsScramble(k));
      h := JsXor(h, JsScramble(k));
    }
    LengthWord(n);
    XorAgrees(h, n);
    FmixAgrees(JsXor(h, n));
    return JsFmix(JsXor(h, n));
  }

  lemma LengthWord(n: nat)
    ensures ToU32(n) == n % W
  {
  }

  /** The tail word, built from its last byte down. */
  method TsTail(tail: Bytes) returns (k: int32)
    requires |tail| <= 3
    ensures k == TailWord(tail)
  {
    k := 0;
    var i := |tail|;
    while i > 0
      invariant 0 <= i <= |tail|
      invariant k == TailWord(tail[i..])
    {
      i := i - 1;
      ShiftIn(tail[i + 1..], tail[i]);
      assert tail[i..] == [tail[i]] + tail[i + 1..];
      k := JsOr(JsShl(k, 8), tail[i]);
    }
    assert tail[0..] == tail;
  }

  lemma ShiftIn(t: Bytes, b: byte)
    requires |t| <= 2
    ensures JsOr(JsShl(TailWord(t), 8), b) == TailWord([b] + t)
  {
    hide Or, Shl, LowZero, Pow2;
    var k := TailWord(t);
    ShlLiteral(k, 0, 0);
    Powers();
    ShlLowZero(k, 8);
    OrDisjoint(256 * k, b, 8);
    assert ([b] + t)[1..] == t;
    SmallWord(k);
    SmallWord(256 * k);
    SmallWord(b);
  }
}
