/** Evaluating the hash at given inputs: the published test vectors, and two server addresses
    whose every point coincides. */
module HashValues {
  import opened Base
  import opened Bits
  import opened RingHash

  // ---- exclusive or, by hexadecimal digits ----

  /** A hexadecimal digit by its bits. */
  datatype Digit = Digit(b8: bool, b4: bool, b2: bool, b1: bool) {
    function Value(): nat {
      4 * Pair(b8, b4) + Pair(b2, b1)
    }

    function Xor(d: Digit): Digit {
      Digit(b8 != d.b8, b4 != d.b4, b2 != d.b2, b1 != d.b1)
    }
  }

  const H0 := Digit(false, false, false, false)
  const H1 := Digit(false, false, false, true)
  const H2 := Digit(false, false, true, false)
  const H3 := Digit(false, false, true, true)
  const H4 := Digit(false, true, false, false)
  const H5 := Digit(false, true, false, true)
  const H6 := Digit(false, true, true, false)
  const H7 := Digit(false, true, true, true)
  const H8 := Digit(true, false, false, false)
  const H9 := Digit(true, false, false, true)
  const HA := Digit(true, false, true, false)
  const HB := Digit(true, false, true, true)
  const HC := Digit(true, true, false, false)
  const HD := Digit(true, true, false, true)
  const HE := Digit(true, true, true, false)
  const HF := Digit(true, true, true, true)

  function Bit(b: bool): nat {
    if b then 1 else 0
  }

  function Pair(p: bool, q: bool): nat {
    2 * Bit(p) + Bit(q)
  }

  /** Four more digits behind `x`. */
  function Four(x: nat, a: Digit, b: Digit, c: Digit, d: Digit): nat {
    d.Value() + 16 * (c.Value() + 16 * (b.Value() + 16 * (a.Value() + 16 * x)))
  }

  function Hex(a: Digit, b: Digit, c: Digit, d: Digit, e: Digit, f: Digit, g: Digit, h: Digit): nat {
    Four(Four(0, a, b, c, d), e, f, g, h)
  }

  lemma XorBit(x: nat, p: bool, y: nat, q: bool)
    ensures Xor(2 * x + Bit(p), 2 * y + Bit(q)) == 2 * Xor(x, y) + Bit(p != q)
  {
    hide Xor;
    XorStep(2 * x + Bit(p), 2 * y + Bit(q));
  }

  lemma XorPair(x: nat, p: bool, p': bool, y: nat, q: bool, q': bool)
    ensures Xor(4 * x + Pair(p, p'), 4 * y + Pair(q, q')) == 4 * Xor(x, y) + Pair(p != q, p' != q')
  {
    hide Xor, Bit;
    XorBit(x, p, y, q);
    XorBit(2 * x + Bit(p), p', 2 * y + Bit(q), q');
  }

  lemma XorDigit(x: nat, a: Digit, y: nat, b: Digit)
    ensures Xor(a.Value() + 16 * x, b.Value() + 16 * y) == a.Xor(b).Value() + 16 * Xor(x, y)
  {
    hide Xor, Pair;
    XorPair(x, a.b8, a.b4, y, b.b8, b.b4);
    XorPair(4 * x + Pair(a.b8, a.b4), a.b2, a.b1, 4 * y + Pair(b.b8, b.b4), b.b2, b.b1);
  }

  lemma DigitValues()
    ensures H0.Value() == 0 && H1.Value() == 1 && H2.Value() == 2 && H3.Value() == 3
    ensures H4.Value() == 4 && H5.Value() == 5 && H6.Value() == 6 && H7.Value() == 7
    ensures H8.Value() == 8 && H9.Value() == 9 && HA.Value() == 10 && HB.Value() == 11
    ensures HC.Value() == 12 && HD.Value() == 13 && HE.Value() == 14 && HF.Value() == 15
  {
  }

  lemma XorFour(x: nat, a: Digit, b: Digit, c: Digit, d: Digit, y: nat, a': Digit, b': Digit, c': Digit, d': Digit)
    ensures Xor(Four(x, a, b, c, d), Four(y, a', b', c', d')) == Four(Xor(x, y), a.Xor(a'), b.Xor(b'), c.Xor(c'), d.Xor(d'))
  {
    hide Xor, Digit.Value, Digit.Xor;
    var x1: nat, y1: nat := a.Value() + 16 * x, a'.Value() + 16 * y;
    var x2, y2 := b.Value() + 16 * x1, b'.Value() + 16 * y1;
    var x3, y3 := c.Value() + 16 * x2, c'.Value() + 16 * y2;
    XorDigit(x, a, y, a');
    XorDigit(x1, b, y1, b');
    XorDigit(x2, c, y2, c');
    XorDigit(x3, d, y3, d');
  }

  lemma XorHex(a: Digit, b: Digit, c: Digit, d: Digit, e: Digit, f: Digit, g: Digit, h: Digit,
               a': Digit, b': Digit, c': Digit, d': Digit, e': Digit, f': Digit, g': Digit, h': Digit,
               a'': Digit, b'': Digit, c'': Digit, d'': Digit, e'': Digit, f'': Digit, g'': Digit, h'': Digit)
    requires a.Xor(a') == a'' && b.Xor(b') == b'' && c.Xor(c') == c'' && d.Xor(d') == d''
    requires e.Xor(e') == e'' && f.Xor(f') == f'' && g.Xor(g') == g'' && h.Xor(h') == h''
    ensures Xor(Hex(a, b, c, d, e, f, g, h), Hex(a', b', c', d', e', f', g', h')) ==
            Hex(a'', b'', c'', d'', e'', f'', g'', h'')
  {
    hide Xor, Four, Digit.Xor;
    XorZero();
    XorFour(0, a, b, c, d, 0, a', b', c', d');
    XorFour(Four(0, a, b, c, d), e, f, g, h, Four(0, a', b', c', d'), e', f', g', h');
  }

  lemma XorZero()
    ensures Xor(0, 0) == 0
  {
  }

  lemma {:induction false} XorWithZero(a: nat)
    ensures Xor(0, a) == a
  {
    if a > 0 {
      XorWithZero(a / 2);
    }
  }

  // ---- shifts and rotations, by quotient and remainder ----

  lemma {:induction false} ShlIsTimes(a: nat, r: nat)
    ensures Shl(a, r) == a * Pow2(r)
  {
    if r > 0 {
      ShlIsTimes(a, r - 1);
      assert 2 * (a * Pow2(r - 1)) == a * (2 * Pow2(r - 1));
    }
  }

  lemma {:induction false} ShrIsQuotient(hi: nat, lo: nat, k: nat)
    requires lo < Pow2(k)
    ensures Shr(hi * Pow2(k) + lo, k) == hi
  {
    if k > 0 {
      var half := hi * Pow2(k - 1);
      assert hi * Pow2(k) == 2 * half by { assert hi * (2 * Pow2(k - 1)) == 2 * (hi * Pow2(k - 1)); }
      assert (2 * half + lo) / 2 == half + lo / 2;
      ShrIsQuotient(hi, lo / 2, k - 1);
    } else {
      assert hi * Pow2(0) + lo == hi;
    }
  }

  lemma SomePowers()
    ensures Pow2(13) == 0x2000 && Pow2(15) == 0x8000 && Pow2(16) == 0x1_0000
    ensures Pow2(17) == 0x2_0000 && Pow2(19) == 0x8_0000
  {
    assert Pow2(8) == 256;
    assert Pow2(13) == 32 * Pow2(8);
    assert Pow2(16) == 8 * Pow2(13);
    assert Pow2(19) == 8 * Pow2(16);
  }

  lemma RotatedParts(hi: nat, lo: nat, up: nat, down: nat)
    requires up * down == W && lo < down
    ensures (hi * down + lo) * up == hi * W + lo * up && lo * up < W
  {
    assert (hi * down) * up == hi * (up * down);
    assert (hi * down + lo) * up == (hi * down) * up + lo * up;
    if up > 0 {
      assert (down - lo) * up == up * down - lo * up;
      assert (down - lo) * up > 0;
    }
  }

  /** Rotating a word moves its upper part `hi` below its lower part `lo`. */
  lemma RotlIs(a: word, hi: nat, lo: nat, r: nat, up: nat, down: nat)
    requires r <= 32 && up == Pow2(r) && down == Pow2(32 - r) && up * down == W
    requires hi < up && lo < down && hi * down + lo == a
    ensures Rotl(a, r) == lo * up + hi
  {
    hide Shl, Shr, Pow2;
    ShlIsTimes(a, r);
    ShrIsQuotient(hi, lo, 32 - r);
    RotatedParts(hi, lo, up, down);
    ModUnique(a * up, W, hi, lo * up);
  }

  // ---- the parts of the hash ----

  lemma ScrambleIs(k: word, hi: nat, lo: nat, r: word)
    requires k * C1 % W == hi * 0x2_0000 + lo && hi < 0x8000 && lo < 0x2_0000
    requires r == (lo * 0x8000 + hi) * C2 % W
    ensures Scramble(k) == r
  {
    hide Rotl;
    SomePowers();
    RotlIs(Mul(k, C1), hi, lo, 15, 0x8000, 0x2_0000);
  }

  lemma MixIs(h: word, k: word, x: word, hi: nat, lo: nat, r: word)
    requires Xor(h, Scramble(k)) == x == hi * 0x8_0000 + lo && hi < 0x2000 && lo < 0x8_0000
    requires r == ((lo * 0x2000 + hi) * 5 % W + 0xe654_6b64) % W
    ensures Mix(h, k) == r
  {
    hide Rotl, Scramble, Xor;
    SomePowers();
    RotlIs(x, hi, lo, 13, 0x2000, 0x8_0000);
  }

  lemma FmixIs(h: word, h1: nat, x: word, a: word, a1: nat, y: word, b: word, b1: nat, r: word)
    requires h1 * 0x1_0000 <= h < h1 * 0x1_0000 + 0x1_0000 && Xor(h, h1) == x && a == x * 0x85eb_ca6b % W
    requires a1 * 0x2000 <= a < a1 * 0x2000 + 0x2000 && Xor(a, a1) == y && b == y * 0xc2b2_ae35 % W
    requires b1 * 0x1_0000 <= b < b1 * 0x1_0000 + 0x1_0000 && Xor(b, b1) == r
    ensures Fmix(h) == r
  {
    hide Xor, Shr, Pow2;
    SomePowers();
    ShrIsQuotient(h1, h - h1 * 0x1_0000, 16);
    ShrIsQuotient(a1, a - a1 * 0x2000, 13);
    ShrIsQuotient(b1, b - b1 * 0x1_0000, 16);
  }

  // ---- the exclusive ors that follow ----

  lemma Value1()
    ensures Xor(0x504b_a9d4, 0x504b) == 0x504b_f99f
  {
    hide Xor, Digit.Value;
    DigitValues();
    XorHex(H5, H0, H4, HB, HA, H9, HD, H4, H0, H0, H0, H0, H5, H0, H4, HB, H5, H0, H4, HB, HF, H9, H9, HF);
  }

  lemma Value2()
    ensures Xor(0x42ad_cb75, 0x0002_156e) == 0x42af_de1b
  {
    hide Xor, Digit.Value;
    DigitValues();
    XorHex(H4, H2, HA, HD, HC, HB, H7, H5, H0, H0, H0, H2, H1, H5, H6, HE, H4, H2, HA, HF, HD, HE, H1, HB);
  }

  lemma Value3()
    ensures Xor(0x3c25_5597, 0x3c25) == 0x3c25_69b2
  {
    hide Xor, Digit.Value;
    DigitValues();
    XorHex(H3, HC, H2, H5, H5, H5, H9, H7, H0, H0, H0, H0, H3, HC, H2, H5, H3, HC, H2, H5, H6, H9, HB, H2);
  }

  lemma Value4()
    ensures Xor(0x504b_a9d5, 0x1) == 0x504b_a9d4
  {
    hide Xor, Digit.Value;
    DigitValues();
    XorHex(H5, H0, H4, HB, HA, H9, HD, H5, H0, H0, H0, H0, H0, H0, H0, H1, H5, H0, H4, HB, HA, H9, HD, H4);
  }

  lemma Value5()
    ensures Xor(0xcb5b_ec36, 0x7d23_8cad) == 0xb678_609b
  {
    hide Xor, Digit.Value;
    DigitValues();
    XorHex(HC, HB, H5, HB, HE, HC, H3, H6, H7, HD, H2, H3, H8, HC, HA, HD, HB, H6, H7, H8, H6, H0, H9, HB);
  }

  lemma Value6()
    ensures Xor(0x22b5_bd6f, 0xa9bc_9655) == 0x8b09_2b3a
  {
    hide Xor, Digit.Value;
    DigitValues();
    XorHex(H2, H2, HB, H5, HB, HD, H6, HF, HA, H9, HB, HC, H9, H6, H5, H5, H8, HB, H0, H9, H2, HB, H3, HA);
  }

  lemma Value7()
    ensures Xor(0x0d07_5367, 0xd07) == 0x0d07_5e60
  {
    hide Xor, Digit.Value;
    DigitValues();
    XorHex(H0, HD, H0, H7, H5, H3, H6, H7, H0, H0, H0, H0, H0, HD, H0, H7, H0, HD, H0, H7, H5, HE, H6, H0);
  }

  lemma Value8()
    ensures Xor(0xc4ac_3220, 0x0006_2561) == 0xc4aa_1741
  {
    hide Xor, Digit.Value;
    DigitValues();
    XorHex(HC, H4, HA, HC, H3, H2, H2, H0, H0, H0, H0, H6, H2, H5, H6, H1, HC, H4, HA, HA, H1, H7, H4, H1);
  }

  lemma Value9()
    ensures Xor(0xc036_fe75, 0xc036) == 0xc036_3e43
  {
    hide Xor, Digit.Value;
    DigitValues();
    XorHex(HC, H0, H3, H6, HF, HE, H7, H5, H0, H0, H0, H0, HC, H0, H3, H6, HC, H0, H3, H6, H3, HE, H4, H3);
  }

  lemma Value10()
    ensures Xor(0xa159_0249, 0xac5e_5123) == 0x0d07_536a
  {
    hide Xor, Digit.Value;
    DigitValues();
    XorHex(HA, H1, H5, H9, H0, H2, H4, H9, HA, HC, H5, HE, H5, H1, H2, H3, H0, HD, H0, H7, H5, H3, H6, HA);
  }

  lemma Value11()
    ensures Xor(0x0d07_536a, 0xd) == 0x0d07_5367
  {
    hide Xor, Digit.Value;
    DigitValues();
    XorHex(H0, HD, H0, H7, H5, H3, H6, HA, H0, H0, H0, H0, H0, H0, H0, HD, H0, HD, H0, H7, H5, H3, H6, H7);
  }

  lemma Value12()
    ensures Xor(0x0f6b_be4b, 0x7c21_fbaf) == 0x734a_45e4
  {
    hide Xor, Digit.Value;
    DigitValues();
    XorHex(H0, HF, H6, HB, HB, HE, H4, HB, H7, HC, H2, H1, HF, HB, HA, HF, H7, H3, H4, HA, H4, H5, HE, H4);
  }

  lemma Value13()
    ensures Xor(0x5203_3371, 0xd023_feac) == 0x8220_cddd
  {
    hide Xor, Digit.Value;
    DigitValues();
    XorHex(H5, H2, H0, H3, H3, H3, H7, H1, HD, H0, H2, H3, HF, HE, HA, HC, H8, H2, H2, H0, HC, HD, HD, HD);
  }

  lemma Value14()
    ensures Xor(0x66fe_dcb8, 0x4ab0_77f4) == 0x2c4e_ab4c
  {
    hide Xor, Digit.Value;
    DigitValues();
    XorHex(H6, H6, HF, HE, HD, HC, HB, H8, H4, HA, HB, H0, H7, H7, HF, H4, H2, HC, H4, HE, HA, HB, H4, HC);
  }

  lemma Value15()
    ensures Xor(0x0f6b_be4b, 0xa9fc_8cfd) == 0xa697_32b6
  {
    hide Xor, Digit.Value;
    DigitValues();
    XorHex(H0, HF, H6, HB, HB, HE, H4, HB, HA, H9, HF, HC, H8, HC, HF, HD, HA, H6, H9, H7, H3, H2, HB, H6);
  }

  lemma Value16()
    ensures Xor(0x6606_937e, 0xd023_feac) == 0xb625_6dd2
  {
    hide Xor, Digit.Value;
    DigitValues();
    XorHex(H6, H6, H0, H6, H9, H3, H7, HE, HD, H0, H2, H3, HF, HE, HA, HC, HB, H6, H2, H5, H6, HD, HD, H2);
  }

  lemma Value17()
    ensures Xor(0x4af8_1d38, 0x66b6_b674) == 0x2c4e_ab4c
  {
    hide Xor, Digit.Value;
    DigitValues();
    XorHex(H4, HA, HF, H8, H1, HD, H3, H8, H6, H6, HB, H6, HB, H6, H7, H4, H2, HC, H4, HE, HA, HB, H4, HC);
  }

  // ---- published vectors ----

  lemma FinalOfA()
    ensures Fmix(0x504b_a9d4) == 0x3c25_69b2
  {
    hide Fmix, Xor;
    Value1();
    Value2();
    Value3();
    FmixIs(0x504b_a9d4, 0x504b, 0x504b_f99f, 0x42ad_cb75, 0x0002_156e, 0x42af_de1b, 0x3c25_5597, 0x3c25, 0x3c25_69b2);
  }

  lemma HashOfA()
    ensures Murmur([97]) == 0x3c25_69b2
  {
    hide Fmix, Xor, Scramble;
    Value4();
    ScrambleIs(97, 0x43f7, 0x0001_2bb1, 0x504b_a9d5);
    XorWithZero(0x504b_a9d5);
    FinalOfA();
    assert [97][0..] == [97];
    assert TailWord([97]) == 97;
  }

  lemma HelloBlock1()
    ensures Mix(0x0, 0x6c6c_6548) == 0xcb5b_ec36
  {
    hide Mix, Xor, Scramble;
    XorWithZero(0x0153_080c);
    ScrambleIs(0x6c6c_6548, 0x1f44, 0x0001_b3c8, 0x0153_080c);
    MixIs(0x0, 0x6c6c_6548, 0x0153_080c, 0x2a, 0x0003_080c, 0xcb5b_ec36);
  }

  lemma HelloBlock2()
    ensures Mix(0xcb5b_ec36, 0x7720_2c6f) == 0x22b5_bd6f
  {
    hide Mix, Xor, Scramble;
    Value5();
    ScrambleIs(0x7720_2c6f, 0x1cbf, 0x0001_921f, 0x7d23_8cad);
    MixIs(0xcb5b_ec36, 0x7720_2c6f, 0xb678_609b, 0x16cf, 0x609b, 0x22b5_bd6f);
  }

  lemma HelloBlock3()
    ensures Mix(0x22b5_bd6f, 0x646c_726f) == 0xa159_0249
  {
    hide Mix, Xor, Scramble;
    Value6();
    ScrambleIs(0x646c_726f, 0x7577, 0x0001_b81f, 0xa9bc_9655);
    MixIs(0x22b5_bd6f, 0x646c_726f, 0x8b09_2b3a, 0x1161, 0x0001_2b3a, 0xa159_0249);
  }

  lemma FinalOfHello()
    ensures Fmix(0x0d07_5367) == 0xc036_3e43
  {
    hide Fmix, Xor;
    Value7();
    Value8();
    Value9();
    FmixIs(0x0d07_5367, 0xd07, 0x0d07_5e60, 0xc4ac_3220, 0x0006_2561, 0xc4aa_1741, 0xc036_fe75, 0xc036, 0xc036_3e43);
  }

  const HELLO: Bytes := [72, 101, 108, 108, 111, 44, 32, 119, 111, 114, 108, 100, 33]

  lemma HashOfHello()
    ensures Murmur(HELLO) == 0xc036_3e43
  {
    hide Fmix, Xor, Scramble, Mix;
    Value10();
    Value11();
    ScrambleIs(33, 0x3031, 0x0001_d771, 0xac5e_5123);
    FinalOfHello();
    HelloBlocks();
    assert HELLO[12..] == [33];
    assert TailWord([33]) == 33;
  }

  lemma HelloBlocks()
    ensures Blocks(HELLO, 3) == 0xa159_0249
  {
    hide Mix;
    HelloBlock1();
    HelloBlock2();
    HelloBlock3();
    assert HELLO[0..4] == [72, 101, 108, 108] && HELLO[4..8] == [111, 44, 32, 119] && HELLO[8..12] == [111, 114, 108, 100];
    assert Blocks(HELLO, 1) == 0xcb5b_ec36;
    assert Blocks(HELLO, 2) == 0x22b5_bd6f;
  }

  // ---- two addresses that leave the hash in one state ----

  const TWIN: Bytes := [49, 48, 46, 53, 46, 49, 50, 49, 46, 49, 48, 58, 52, 52, 51, 57]
  const OTHER_TWIN: Bytes := [49, 48, 46, 53, 51, 46, 56, 49, 46, 49, 48, 58, 52, 52, 51, 56]

  lemma FirstBlock()
    ensures Mix(0x0, 0x352e_3031) == 0x0f6b_be4b
  {
    hide Mix, Xor, Scramble;
    XorWithZero(0xb7dd_0e8b);
    ScrambleIs(0x352e_3031, 0x5e29, 0x0001_dc81, 0xb7dd_0e8b);
    MixIs(0x0, 0x352e_3031, 0xb7dd_0e8b, 0x16fb, 0x0005_0e8b, 0x0f6b_be4b);
  }

  lemma TwinBlock2()
    ensures Mix(0x0f6b_be4b, 0x3132_312e) == 0x5203_3371
  {
    hide Mix, Xor, Scramble;
    Value12();
    ScrambleIs(0x3132_312e, 0x32f5, 0xa58e, 0x7c21_fbaf);
    MixIs(0x0f6b_be4b, 0x3132_312e, 0x734a_45e4, 0xe69, 0x0002_45e4, 0x5203_3371);
  }

  lemma TwinBlock3()
    ensures Mix(0x5203_3371, 0x3a30_312e) == 0x66fe_dcb8
  {
    hide Mix, Xor, Scramble;
    Value13();
    ScrambleIs(0x3a30_312e, 0x7224, 0xa58e, 0xd023_feac);
    MixIs(0x5203_3371, 0x3a30_312e, 0x8220_cddd, 0x1044, 0xcddd, 0x66fe_dcb8);
  }

  lemma TwinBlock4()
    ensures Mix(0x66fe_dcb8, 0x3933_3434) == 0x1164_0711
  {
    hide Mix, Xor, Scramble;
    Value14();
    ScrambleIs(0x3933_3434, 0x60bc, 0xa874, 0x4ab0_77f4);
    MixIs(0x66fe_dcb8, 0x3933_3434, 0x2c4e_ab4c, 0x589, 0x0006_ab4c, 0x1164_0711);
  }

  lemma OtherBlock2()
    ensures Mix(0x0f6b_be4b, 0x3138_2e33) == 0x6606_937e
  {
    hide Mix, Xor, Scramble;
    Value15();
    ScrambleIs(0x3138_2e33, 0x4d2f, 0x0001_9523, 0xa9fc_8cfd);
    MixIs(0x0f6b_be4b, 0x3138_2e33, 0xa697_32b6, 0x14d2, 0x0007_32b6, 0x6606_937e);
  }

  lemma OtherBlock3()
    ensures Mix(0x6606_937e, 0x3a30_312e) == 0x4af8_1d38
  {
    hide Mix, Xor, Scramble;
    Value16();
    ScrambleIs(0x3a30_312e, 0x7224, 0xa58e, 0xd023_feac);
    MixIs(0x6606_937e, 0x3a30_312e, 0xb625_6dd2, 0x16c4, 0x0005_6dd2, 0x4af8_1d38);
  }

  lemma OtherBlock4()
    ensures Mix(0x4af8_1d38, 0x3833_3434) == 0x1164_0711
  {
    hide Mix, Xor, Scramble;
    Value17();
    ScrambleIs(0x3833_3434, 0x383c, 0xa874, 0x66b6_b674);
    MixIs(0x4af8_1d38, 0x3833_3434, 0x2c4e_ab4c, 0x589, 0x0006_ab4c, 0x1164_0711);
  }

  lemma TwinBlocks()
    ensures Blocks(TWIN, 4) == 0x1164_0711
  {
    hide Mix;
    FirstBlock();
    TwinBlock2();
    TwinBlock3();
    TwinBlock4();
    assert TWIN[0..4] == [49, 48, 46, 53] && TWIN[4..8] == [46, 49, 50, 49];
    assert TWIN[8..12] == [46, 49, 48, 58] && TWIN[12..16] == [52, 52, 51, 57];
    assert Blocks(TWIN, 1) == 0x0f6b_be4b;
    assert Blocks(TWIN, 2) == 0x5203_3371;
    assert Blocks(TWIN, 3) == 0x66fe_dcb8;
  }

  lemma OtherBlocks()
    ensures Blocks(OTHER_TWIN, 4) == 0x1164_0711
  {
    hide Mix;
    FirstBlock();
    OtherBlock2();
    OtherBlock3();
    OtherBlock4();
    assert OTHER_TWIN[0..4] == [49, 48, 46, 53] && OTHER_TWIN[4..8] == [51, 46, 56, 49];
    assert OTHER_TWIN[8..12] == [46, 49, 48, 58] && OTHER_TWIN[12..16] == [52, 52, 51, 56];
    assert Blocks(OTHER_TWIN, 1) == 0x0f6b_be4b;
    assert Blocks(OTHER_TWIN, 2) == 0x6606_937e;
    assert Blocks(OTHER_TWIN, 3) == 0x4af8_1d38;
  }
}
