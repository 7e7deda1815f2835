/** Two server addresses, 10.5.121.10:4439 and 10.53.81.10:4438, for which skipping the first
    differs from rebuilding without it, for every key. */
module RingTwins {
  import opened Base
  import opened RingHash
  import opened HashValues
  import opened Ring
  import opened Rings

  /** Whole blocks are hashed the same whatever follows. */
  lemma {:induction false} BlocksOfPrefix(a: Bytes, s: Bytes, n: nat)
    requires 4 * n <= |a|
    ensures Blocks(a + s, n) == Blocks(a, n)
  {
    hide Mix;
    if n > 0 {
      BlocksOfPrefix(a, s, n - 1);
      assert (a + s)[4 * (n - 1)..4 * n] == a[4 * (n - 1)..4 * n];
    }
  }

  lemma {:induction false} BlocksGoOn(a: Bytes, b: Bytes, s: Bytes, m: nat, n: nat)
    requires |a| == |b| == 4 * m && Blocks(a, m) == Blocks(b, m) && m <= n && 4 * n <= |a| + |s|
    ensures Blocks(a + s, n) == Blocks(b + s, n)
    decreases n
  {
    hide Mix;
    if n == m {
      BlocksOfPrefix(a, s, m);
      BlocksOfPrefix(b, s, m);
    } else {
      BlocksGoOn(a, b, s, m, n - 1);
      assert (a + s)[4 * (n - 1)..4 * n] == (b + s)[4 * (n - 1)..4 * n];
    }
  }

  /** Two prefixes of whole blocks that leave the same state are never told apart again. */
  lemma SameStateSameHash(a: Bytes, b: Bytes, s: Bytes, m: nat)
    requires |a| == |b| == 4 * m && Blocks(a, m) == Blocks(b, m)
    ensures Murmur(a + s) == Murmur(b + s)
  {
    hide Mix, Fmix, XorW, Scramble, Blocks;
    var n := |a + s| / 4;
    BlocksGoOn(a, b, s, m, n);
    assert (a + s)[4 * n..] == (b + s)[4 * n..];
  }

  lemma SameStateSamePoints(a: Bytes, b: Bytes, m: nat)
    requires |a| == |b| == 4 * m && Blocks(a, m) == Blocks(b, m)
    ensures PointsOf(a) == PointsOf(b)
  {
    hide Murmur, Blocks, Decimal;
    forall p: nat
      ensures PointAt(a, p) == PointAt(b, p)
    {
      SameStateSameHash(a, b, [35] + Decimal(p), m);
      assert PointText(a, p) == a + ([35] + Decimal(p)) && PointText(b, p) == b + ([35] + Decimal(p));
    }
  }

  lemma TwinsShareTheirPoints()
    ensures PointsOf(TWIN) == PointsOf(OTHER_TWIN) && Less(TWIN, OTHER_TWIN)
  {
    TwinBlocks();
    OtherBlocks();
    SameStateSamePoints(TWIN, OTHER_TWIN, 4);
    TwinIsLess();
  }

  lemma TwinIsLess()
    ensures Less(TWIN, OTHER_TWIN)
  {
    var a, b := TWIN, OTHER_TWIN;
    assert Less(a[4..], b[4..]);
    assert a[3..][1..] == a[4..] && b[3..][1..] == b[4..];
    assert Less(a[3..], b[3..]);
    assert a[2..][1..] == a[3..] && b[2..][1..] == b[3..];
    assert Less(a[2..], b[2..]);
    assert a[1..][1..] == a[2..] && b[1..][1..] == b[2..];
    assert Less(a[1..], b[1..]);
  }

  /** With the first of the two servers out, every key is still sent to it; built without it,
      the ring sends every key to the second. */
  lemma SkippingATwin(key: Bytes, skipped: nat, rebuilt: nat)
    requires Picks([TWIN, OTHER_TWIN], key, NotFirst, skipped) && Picks([OTHER_TWIN], key, All, rebuilt)
    ensures skipped == 0 && rebuilt == 0 && TWIN != OTHER_TWIN
  {
    hide PointsOf, Murmur, IsRing, GoesTo, Less;
    TwinsShareTheirPoints();
    var ring, p :| IsRing(ring, [TWIN, OTHER_TWIN], PointsOf) && GoesTo(ring, NotFirst, Murmur(key), p) && p.node == skipped;
    var ring', q :| IsRing(ring', [OTHER_TWIN], PointsOf) && GoesTo(ring', All, Murmur(key), q) && q.node == rebuilt;
    TwinHidesAll(ring, TWIN, OTHER_TWIN, p, ring', q, PointsOf, Murmur(key));
    LessIsTotal(TWIN, OTHER_TWIN);
  }

  /** The same of what the clients compute. */
  method AskWithTwinOut(key: Bytes) returns (skipped: Bytes, rebuilt: Bytes)
    ensures skipped == TWIN && rebuilt == OTHER_TWIN && skipped != rebuilt
  {
    hide Picks;
    var names := [TWIN, OTHER_TWIN];
    var i := RustPick(names, key, NotFirst);
    var j := RustPick([OTHER_TWIN], key, All);
    SkippingATwin(key, i, j);
    skipped, rebuilt := names[i], [OTHER_TWIN][j];
  }
}
