/** Bitwise operations on natural numbers, defined bit by bit so that their laws are
    proved by induction. A machine word is a natural number below a power of two. */
module Bits {

  function Pow2(k: nat): (r: nat)
    ensures r > 0
  {
    if k == 0 then 1 else 2 * Pow2(k - 1)
  }

  lemma {:induction false} Pow2Grows(j: nat, k: nat)
    requires j <= k
    ensures Pow2(j) <= Pow2(k)
  {
    if j < k {
      Pow2Grows(j, k - 1);
    }
  }

  function Xor(a: nat, b: nat): nat
    decreases a + b
  {
    if a == 0 && b == 0 then 0 else (a % 2 + b % 2) % 2 + 2 * Xor(a / 2, b / 2)
  }

  function And(a: nat, b: nat): nat {
    if a == 0 || b == 0 then 0 else (a % 2) * (b % 2) + 2 * And(a / 2, b / 2)
  }

  function Or(a: nat, b: nat): nat
    decreases a + b
  {
    if a == 0 && b == 0 then 0
    else (if a % 2 == 1 || b % 2 == 1 then 1 else 0) + 2 * Or(a / 2, b / 2)
  }

  /** The number shifted right by `k` bits. */
  function Shr(a: nat, k: nat): nat {
    if k == 0 then a else Shr(a / 2, k - 1)
  }

  /** Shifting out the low `k` bits of a number of `n + k` bits leaves `n` bits. */
  lemma {:induction false} ShrBound(a: nat, n: nat, k: nat)
    requires a < Pow2(n + k)
    ensures Shr(a, k) < Pow2(n)
  {
    if k > 0 {
      ShrBound(a / 2, n, k - 1);
    }
  }

  /** Shifting right by `k` is division by `2^k`. */
  lemma {:induction false} ShrRange(a: nat, k: nat)
    ensures Shr(a, k) * Pow2(k) <= a < (Shr(a, k) + 1) * Pow2(k)
  {
    if k > 0 {
      ShrRange(a / 2, k - 1);
      DoubleRange(a, Shr(a / 2, k - 1), Pow2(k - 1));
    }
  }

  lemma DoubleRange(a: nat, q: nat, h: nat)
    requires q * h <= a / 2 < (q + 1) * h
    ensures q * (2 * h) <= a < (q + 1) * (2 * h)
  {
    var low, high := q * h, (q + 1) * h;
    assert q * (2 * h) == 2 * low && (q + 1) * (2 * h) == 2 * high by {
      Twice(q, h);
      Twice(q + 1, h);
    }
  }

  lemma Twice(q: nat, h: nat)
    ensures q * (2 * h) == 2 * (q * h)
  {
  }

  /** Applying the same mask twice with exclusive-or gives the number back. */
  lemma {:induction false} XorCancel(a: nat, b: nat)
    ensures Xor(Xor(a, b), b) == a
    decreases a + b
  {
    if a == 0 && b == 0 {
    } else {
      XorCancel(a / 2, b / 2);
      var x := Xor(a, b);
      XorStep(a, b);
      XorStep(x, b);
      ParityCancel(a % 2, b % 2);
      var y := Xor(x, b);
      assert y / 2 == a / 2 && y % 2 == a % 2;
      HalfAndBit(y);
      HalfAndBit(a);
    }
  }

  /** Masking with `2^k - 1` keeps a number below `2^k`. */
  lemma {:induction false} AndMaskBound(a: nat, k: nat)
    ensures And(a, Pow2(k) - 1) < Pow2(k)
  {
    if a == 0 || k == 0 {
    } else {
      AndMaskBound(a / 2, k - 1);
      assert (Pow2(k) - 1) / 2 == Pow2(k - 1) - 1;
    }
  }

  /** Masking with the low `k` bits is the remainder. */
  lemma {:induction false} AndMaskIsRemainder(a: nat, k: nat)
    ensures And(a, Pow2(k) - 1) == a % Pow2(k)
  {
    if k == 0 {
      NoMask(a);
    } else {
      MaskStep(a, k);
      AndMaskIsRemainder(a / 2, k - 1);
      RemainderStep(a, Pow2(k - 1));
    }
  }

  /** The remainder by an even number, bit by bit. */
  lemma RemainderStep(a: nat, h: nat)
    requires h > 0
    ensures a % (2 * h) == 2 * (a / 2 % h) + a % 2
  {
    var q, r := a / 2 / h, a / 2 % h;
    assert a / 2 == q * h + r;
    assert a == 2 * (q * h + r) + a % 2 == q * (2 * h) + (2 * r + a % 2);
    ModUnique(a, 2 * h, q, 2 * r + a % 2);
  }

  lemma ModUnique(x: nat, m: nat, q: nat, r: nat)
    requires m > 0 && x == q * m + r && r < m
    ensures x % m == r && x / m == q
  {
    var q', r' := x / m, x % m;
    assert x == q' * m + r';
    if q < q' {
      NextMultiple(q, q', m);
    } else if q' < q {
      NextMultiple(q', q, m);
    }
  }

  lemma NextMultiple(a: nat, b: nat, m: nat)
    requires a < b
    ensures b * m >= a * m + m
  {
    assert b * m == (b - a - 1) * m + (a * m + m);
  }

  /** A number below `2^k` is its own masked value. */
  lemma {:induction false} AndMaskSmall(a: nat, k: nat)
    requires a < Pow2(k)
    ensures And(a, Pow2(k) - 1) == a
  {
    if a == 0 || k == 0 {
    } else {
      AndMaskSmall(a / 2, k - 1);
      assert (Pow2(k) - 1) / 2 == Pow2(k - 1) - 1;
      assert (Pow2(k) - 1) % 2 == 1;
    }
  }

  /** The mask may be applied to the first operand early: the bits it drops never come back. */
  lemma {:induction false} XorMasked(a: nat, h: nat, k: nat)
    ensures And(Xor(And(a, Pow2(k) - 1), h), Pow2(k) - 1) == And(Xor(a, h), Pow2(k) - 1)
    decreases k
  {
    hide And, Xor, Pow2;
    if k > 0 {
      XorMasked(a / 2, h / 2, k - 1);
      MaskParts(a, k);
      MaskedXorStep(a, h, k);
      MaskedXorStep(And(a, Pow2(k) - 1), h, k);
    } else {
      NoMask(Xor(And(a, Pow2(0) - 1), h));
      NoMask(Xor(a, h));
    }
  }

  lemma NoMask(a: nat)
    ensures And(a, Pow2(0) - 1) == 0
  {
  }

  lemma MaskParts(a: nat, k: nat)
    requires k > 0
    ensures And(a, Pow2(k) - 1) / 2 == And(a / 2, Pow2(k - 1) - 1) && And(a, Pow2(k) - 1) % 2 == a % 2
  {
    hide And, Pow2;
    MaskStep(a, k);
  }

  lemma MaskedXorStep(a: nat, h: nat, k: nat)
    requires k > 0
    ensures And(Xor(a, h), Pow2(k) - 1) == (a % 2 + h % 2) % 2 + 2 * And(Xor(a / 2, h / 2), Pow2(k - 1) - 1)
  {
    hide And, Xor, Pow2;
    MaskStep(Xor(a, h), k);
    XorStep(a, h);
  }

  lemma MaskStep(a: nat, k: nat)
    requires k > 0
    ensures And(a, Pow2(k) - 1) == a % 2 + 2 * And(a / 2, Pow2(k - 1) - 1)
  {
    assert (Pow2(k) - 1) / 2 == Pow2(k - 1) - 1;
    assert (Pow2(k) - 1) % 2 == 1;
    if a != 0 {
      assert And(a, Pow2(k) - 1) == (a % 2) * ((Pow2(k) - 1) % 2) + 2 * And(a / 2, (Pow2(k) - 1) / 2);
    }
  }

  lemma ParityCancel(a: nat, b: nat)
    requires a < 2 && b < 2
    ensures ((a + b) % 2 + b) % 2 == a
  {
  }

  lemma HalfAndBit(a: nat)
    ensures a == a % 2 + 2 * (a / 2)
  {
  }

  lemma XorStep(a: nat, b: nat)
    ensures Xor(a, b) % 2 == (a % 2 + b % 2) % 2
    ensures Xor(a, b) / 2 == Xor(a / 2, b / 2)
  {
  }
}
