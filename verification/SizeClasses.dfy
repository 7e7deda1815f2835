/** The slab's size classes: 64-byte steps up to 1 KiB, then four classes per doubling. */
module SizeClasses {
  import opened Base
  import opened Bits

  const MAX_SLAB := 0x1_0000
  const LINEAR_MAX := 1024
  const LINEAR := 16
  const CLASSES := 40
  const BATCH_BYTES := 0x1_0000

  /** Index of the highest set bit. */
  function Log2(n: nat): (k: nat)
    requires n > 0
    ensures Pow2(k) <= n < Pow2(k + 1)
  {
    if n == 1 then 0 else 1 + Log2(n / 2)
  }

  function CeilDiv(a: nat, b: nat): nat
    requires b > 0
  {
    (a + b - 1) / b
  }

  function ClassOf(size: nat): Option<nat>
    requires size > 0
  {
    if size <= LINEAR_MAX then Some(CeilDiv(size, 64) - 1)
    else if size > MAX_SLAB then None
    else
      var k := Log2(size - 1);
      LogInRange(size);
      var sub := CeilDiv(size - Pow2(k), Pow2(k - 2));
      Some(LINEAR + 4 * (k - 10) + sub - 1)
  }

  function ClassSize(cls: nat): nat {
    if cls < LINEAR then (cls + 1) * 64
    else
      var g := cls - LINEAR;
      var k := 10 + g / 4;
      Pow2(k) + (g % 4 + 1) * Pow2(k - 2)
  }

  /** Chunks moved between a magazine and the shared lists at a time. */
  function Batch(cls: nat): nat {
    SizePositive(cls);
    var n := BATCH_BYTES / ClassSize(cls);
    if n < 1 then 1 else if n > 32 then 32 else n
  }

  lemma SizePositive(cls: nat)
    ensures ClassSize(cls) > 0
  {
  }

  lemma Powers()
    ensures Pow2(8) == 256 && Pow2(9) == 512 && Pow2(10) == 1024 && Pow2(11) == 2048 && Pow2(12) == 4096
    ensures Pow2(13) == 8192 && Pow2(14) == 16384 && Pow2(15) == 32768 && Pow2(16) == 65536
  {
    assert Pow2(4) == 16;
    assert Pow2(8) == 16 * Pow2(4);
    assert Pow2(12) == 16 * Pow2(8);
    assert Pow2(16) == 16 * Pow2(12);
  }

  lemma LogInRange(size: nat)
    requires LINEAR_MAX < size <= MAX_SLAB
    ensures 10 <= Log2(size - 1) <= 15
  {
    var k := Log2(size - 1);
    Powers();
    if k < 10 {
      Pow2Grows(k + 1, 10);
    } else if k > 15 {
      Pow2Grows(16, k);
    }
  }

  /** Every class of the upper part, its size written out as a multiple of a quarter step. */
  lemma UpperSize(k: nat, sub: nat)
    requires 10 <= k && 1 <= sub <= 4
    ensures var cls := LINEAR + 4 * (k - 10) + sub - 1; ClassSize(cls) == (4 + sub) * Pow2(k - 2)
    ensures Pow2(k) == 4 * Pow2(k - 2)
  {
    var g := 4 * (k - 10) + sub - 1;
    assert g / 4 == k - 10 && g % 4 == sub - 1;
    assert Pow2(k) == 2 * Pow2(k - 1);
    var p := Pow2(k - 2);
    assert 4 * p + sub * p == (4 + sub) * p;
  }

  lemma SizesGrow(cls: nat)
    ensures ClassSize(cls) < ClassSize(cls + 1)
  {
    if cls >= LINEAR {
      var k, sub := 10 + (cls - LINEAR) / 4, (cls - LINEAR) % 4 + 1;
      UpperSize(k, sub);
      if sub < 4 {
        UpperSize(k, sub + 1);
        var p := Pow2(k - 2);
        assert (4 + (sub + 1)) * p == (4 + sub) * p + p;
      } else {
        UpperSize(k + 1, 1);
      }
    } else if cls == LINEAR - 1 {
      Powers();
    }
  }

  lemma {:induction false} SizesGrowBetween(c: nat, d: nat)
    requires c < d
    ensures ClassSize(c) < ClassSize(d)
  {
    SizesGrow(d - 1);
    if c < d - 1 {
      SizesGrowBetween(c, d - 1);
    }
  }

  lemma CeilDivBounds(a: nat, b: nat)
    requires b > 0
    ensures CeilDiv(a, b) * b - b < a <= CeilDiv(a, b) * b
  {
    var q, r := (a + b - 1) / b, (a + b - 1) % b;
    assert a + b - 1 == q * b + r;
  }

  /** The chosen class fits the size, the class before it does not, and at most a quarter of
      the size (plus one step) is padding; only sizes above the largest class are refused. */
  predicate Fits(size: nat, cls: nat) {
    && cls < CLASSES && size <= ClassSize(cls) && (cls > 0 ==> ClassSize(cls - 1) < size)
    && ClassSize(cls) - size < size / 4 + 64
  }

  lemma ClassFits(size: nat)
    requires size > 0
    ensures ClassOf(size).None? <==> size > MAX_SLAB
    ensures size <= MAX_SLAB ==> Fits(size, ClassOf(size).value)
  {
    if LINEAR_MAX < size <= MAX_SLAB {
      UpperFits(size);
    } else if size <= LINEAR_MAX {
      CeilDivBounds(size, 64);
    }
  }

  lemma UpperFits(size: nat)
    requires LINEAR_MAX < size <= MAX_SLAB
    ensures Fits(size, ClassOf(size).value)
  {
    hide ClassSize, CeilDiv, Log2, Pow2;
    var k := Log2(size - 1);
    LogInRange(size);
    var p := Pow2(k - 2);
    Doublings(k - 2);
    var a := size - 4 * p;
    var sub := CeilDiv(a, p);
    CeilDivBounds(a, p);
    QuarterStep(a, sub, p);
    UpperSize(k, sub);
    assert (4 + sub) * p == 4 * p + sub * p;
    BeforeUpper(k, sub);
  }

  lemma Doublings(k: nat)
    ensures Pow2(k + 2) == 4 * Pow2(k) && Pow2(k + 3) == 8 * Pow2(k)
  {
    assert Pow2(k + 2) == 2 * Pow2(k + 1);
  }

  lemma QuarterStep(a: nat, sub: nat, p: nat)
    requires 0 < a <= 4 * p && sub * p - p < a <= sub * p
    ensures 1 <= sub <= 4
  {
    FiveTimes(sub, p);
  }

  lemma FiveTimes(n: nat, p: nat)
    ensures n >= 5 ==> n * p >= 5 * p
  {
    if n >= 5 {
      assert n * p == 5 * p + (n - 5) * p && (n - 5) * p >= 0;
    }
  }

  lemma BeforeUpper(k: nat, sub: nat)
    requires 10 <= k && 1 <= sub <= 4
    ensures ClassSize(LINEAR + 4 * (k - 10) + sub - 2) == 4 * Pow2(k - 2) + sub * Pow2(k - 2) - Pow2(k - 2)
  {
    if sub > 1 {
      UpperSize(k, sub - 1);
      var p := Pow2(k - 2);
      assert (4 + (sub - 1)) * p == 4 * p + sub * p - p;
    } else if k > 10 {
      UpperSize(k - 1, 4);
    } else {
      Powers();
    }
  }

  /** `ClassOf` picks the smallest class that fits. */
  lemma ClassIsSmallest(size: nat, cls: nat)
    requires 0 < size <= MAX_SLAB
    ensures ClassOf(size).Some? && (cls < ClassOf(size).value <==> ClassSize(cls) < size)
  {
    hide ClassOf, ClassSize;
    ClassFits(size);
    var c := ClassOf(size).value;
    if cls < c {
      if cls < c - 1 {
        SizesGrowBetween(cls, c - 1);
      }
    } else if cls > c {
      SizesGrowBetween(c, cls);
    }
  }

  /** A class serves its own size, and the sizes are whole cache lines up to the largest. */
  lemma ClassServesItself(cls: nat)
    requires cls < CLASSES
    ensures 0 < ClassSize(cls) <= MAX_SLAB && ClassSize(cls) % 64 == 0
    ensures ClassOf(ClassSize(cls)) == Some(cls)
  {
    hide ClassOf, ClassSize;
    SizePositive(cls);
    LineSized(cls);
    LargestClass();
    if cls < CLASSES - 1 {
      SizesGrowBetween(cls, CLASSES - 1);
    }
    var size := ClassSize(cls);
    ClassIsSmallest(size, cls);
    ClassFits(size);
    var c := ClassOf(size).value;
    if cls > c {
      SizesGrowBetween(c, cls);
    }
  }

  lemma LargestClass()
    ensures ClassSize(CLASSES - 1) == MAX_SLAB
  {
    UpperSize(15, 4);
    Powers();
  }

  /** One batch is at least one chunk and at most 64 KiB. */
  lemma BatchBound(cls: nat)
    requires cls < CLASSES
    ensures 1 <= Batch(cls) <= 32 && Batch(cls) * ClassSize(cls) <= BATCH_BYTES
    ensures Batch(cls) < 32 ==> (Batch(cls) + 1) * ClassSize(cls) > BATCH_BYTES
  {
    hide ClassSize;
    ClassServesItself(cls);
    BatchFits(BATCH_BYTES, ClassSize(cls), Batch(cls));
  }

  lemma BatchFits(a: nat, b: nat, n: nat)
    requires 0 < b <= a && n == if a / b < 1 then 1 else if a / b > 32 then 32 else a / b
    ensures 1 <= n <= 32 && n * b <= a && (n < 32 ==> (n + 1) * b > a)
  {
    QuotientFits(a, b);
  }

  lemma QuotientFits(a: nat, b: nat)
    requires 0 < b <= a
    ensures 1 <= a / b && a / b * b <= a < (a / b + 1) * b && (a / b > 32 ==> 32 * b <= a)
  {
    var n, r := a / b, a % b;
    assert a == n * b + r;
    if n > 32 {
      assert n * b == 32 * b + (n - 32) * b && (n - 32) * b >= 0;
    }
    assert n < 1 ==> n * b == 0;
  }

  lemma LineSized(cls: nat)
    ensures ClassSize(cls) % 64 == 0
  {
    if cls >= LINEAR {
      var k, sub := 10 + (cls - LINEAR) / 4, (cls - LINEAR) % 4 + 1;
      UpperSize(k, sub);
      PowOfLines(k - 8);
      WholeLines(4 + sub, Pow2(k - 8));
    }
  }

  lemma WholeLines(n: nat, m: nat)
    ensures n * (64 * m) == 64 * (n * m) && (64 * (n * m)) % 64 == 0
  {
  }

  lemma PowOfLines(k: nat)
    ensures Pow2(k + 6) == 64 * Pow2(k)
  {
    assert Pow2(k + 2) == 4 * Pow2(k);
    assert Pow2(k + 4) == 4 * Pow2(k + 2);
  }
}
