/** Building the ring and locating keys on it, as the two clients do. */
module Rings {
  import opened Base
  import opened Bits
  import opened RingHash
  import opened Ring

  const POINTS := 512

  function Decimal(n: nat): Bytes {
    if n < 10 then [48 + n] else Decimal(n / 10) + [48 + n % 10]
  }

  /** The text hashed for point `p` of a server. */
  function PointText(name: Bytes, p: nat): Bytes {
    name + [35] + Decimal(p)
  }

  /** The number a decimal text stands for. */
  function FromDecimal(text: Bytes): nat {
    if text == [] then 0
    else
      var (front, digit) := (text[..|text| - 1], text[|text| - 1]);
      10 * FromDecimal(front) + if 48 <= digit <= 57 then digit - 48 else 0
  }

  predicate Digits(text: Bytes) {
    forall d | d in text :: 48 <= d <= 57
  }

  /** A number is written in digits, with no zero in front, and reads back. */
  lemma {:induction false} DecimalReads(n: nat)
    ensures FromDecimal(Decimal(n)) == n && Decimal(n) != []
    ensures Digits(Decimal(n))
    ensures Decimal(n)[0] == 48 ==> n == 0
  {
    if n < 10 {
      assert Decimal(n)[..0] == [];
    } else {
      DecimalReads(n / 10);
      assert Decimal(n)[..|Decimal(n)| - 1] == Decimal(n / 10);
    }
  }

  /** The text of a point is the server's name, a `#` and the number of the point in decimal;
      no two points of any servers share a text. */
  lemma PointTextReads(a: Bytes, p: nat, b: Bytes, q: nat)
    ensures var text := PointText(a, p);
            text[..|a|] == a && text[|a|] == 35 && FromDecimal(text[|a| + 1..]) == p
    ensures PointText(a, p) == PointText(b, q) ==> a == b && p == q
  {
    hide Decimal, FromDecimal;
    DecimalReads(p);
    DecimalReads(q);
    var s, t := PointText(a, p), PointText(b, q);
    assert s[|a| + 1..] == Decimal(p) && t[|b| + 1..] == Decimal(q);
    if s == t {
      LastMark(s, |a|, |b|);
    }
  }

  /** Where a text ends in `#` and digits is fixed by the text. */
  lemma LastMark(text: Bytes, i: nat, j: nat)
    requires i < |text| && j < |text| && text[i] == text[j] == 35
    requires Digits(text[i + 1..]) && Digits(text[j + 1..])
    ensures i == j
  {
    NoMarkBehind(text, i);
    NoMarkBehind(text, j);
  }

  lemma NoMarkBehind(text: Bytes, i: nat)
    requires i < |text| && Digits(text[i + 1..])
    ensures forall k | i < k < |text| :: text[k] != 35
  {
    forall k | i < k < |text| ensures text[k] != 35 {
      var tail := text[i + 1..];
      assert text[k] == tail[k - i - 1] && tail[k - i - 1] in tail;
    }
  }

  function PointAt(name: Bytes, p: nat): nat {
    Murmur(PointText(name, p))
  }

  /** The points a server puts on the ring. */
  function PointsOf(name: Bytes): set<nat> {
    set p | 0 <= p < POINTS :: PointAt(name, p)
  }

  // ---- sorting and thinning out ----

  /** The order points are sorted in: by hash, then by server name. */
  predicate Before(a: Point, b: Point, names: seq<Bytes>)
    requires a.node < |names| && b.node < |names|
  {
    a.hash < b.hash || (a.hash == b.hash && Less(names[a.node], names[b.node]))
  }

  predicate Placed(ps: seq<Point>, names: seq<Bytes>) {
    forall p | p in ps :: p.node < |names|
  }

  ghost predicate Sorted(ps: seq<Point>, names: seq<Bytes>)
    requires Placed(ps, names)
  {
    forall i, j | 0 <= i < j < |ps| :: !Before(ps[j], ps[i], names)
  }

  lemma BeforeIsWeakOrder(a: Point, b: Point, c: Point, names: seq<Bytes>)
    requires a.node < |names| && b.node < |names| && c.node < |names|
    ensures !(Before(a, b, names) && Before(b, a, names))
    ensures Before(a, c, names) ==> Before(a, b, names) || Before(b, c, names)
  {
    var x, y, z := names[a.node], names[b.node], names[c.node];
    LessIsTotal(x, y);
    LessIsTotal(y, z);
    LessIsTotal(x, z);
    if Less(y, x) && Less(x, z) {
      LessIsTransitive(y, x, z);
    }
  }

  /** One step of a sort: `x` goes in front of the first point it precedes. */
  function Insert(ps: seq<Point>, x: Point, names: seq<Bytes>): (r: seq<Point>)
    requires Placed(ps, names) && x.node < |names|
    ensures multiset(r) == multiset(ps) + multiset{x} && Placed(r, names)
  {
    if ps == [] then [x]
    else if Before(x, ps[0], names) then [x] + ps
    else
      assert ps == [ps[0]] + ps[1..];
      var r := [ps[0]] + Insert(ps[1..], x, names);
      assert forall p | p in r :: p == ps[0] || p in Insert(ps[1..], x, names);
      r
  }

  lemma {:induction false} InsertKeepsSorted(ps: seq<Point>, x: Point, names: seq<Bytes>)
    requires Placed(ps, names) && x.node < |names| && Sorted(ps, names)
    ensures Sorted(Insert(ps, x, names), names)
  {
    if ps == [] {
    } else if Before(x, ps[0], names) {
      forall j | 0 <= j < |ps|
        ensures !Before(ps[j], x, names)
      {
        BeforeIsWeakOrder(x, ps[j], ps[0], names);
        BeforeIsWeakOrder(ps[j], x, ps[0], names);
      }
    } else {
      var tail := Insert(ps[1..], x, names);
      InsertKeepsSorted(ps[1..], x, names);
      forall q | q in tail
        ensures !Before(q, ps[0], names)
      {
        assert q in multiset(tail);
        if q != x {
          assert q in multiset(ps[1..]);
          var j :| 0 <= j < |ps[1..]| && ps[1..][j] == q;
          assert ps[j + 1] == q;
        }
      }
    }
  }

  /** A sort by that order, standing in for the library's. */
  function Sort(ps: seq<Point>, names: seq<Bytes>): (r: seq<Point>)
    requires Placed(ps, names)
    ensures multiset(r) == multiset(ps) && Placed(r, names)
  {
    if ps == [] then [] else
      assert ps == ps[..|ps| - 1] + [ps[|ps| - 1]];
      assert ps[|ps| - 1] in ps;
      Insert(Sort(ps[..|ps| - 1], names), ps[|ps| - 1], names)
  }

  lemma {:induction false} SortSorts(ps: seq<Point>, names: seq<Bytes>)
    requires Placed(ps, names)
    ensures Sorted(Sort(ps, names), names)
  {
    if ps != [] {
      assert ps[|ps| - 1] in ps;
      SortSorts(ps[..|ps| - 1], names);
      InsertKeepsSorted(Sort(ps[..|ps| - 1], names), ps[|ps| - 1], names);
    }
  }

  /** Of neighbours with the same hash only the first stays. */
  function Thinned(ps: seq<Point>): seq<Point> {
    if ps == [] then []
    else
      var n := |ps| - 1;
      if n > 0 && ps[n - 1].hash == ps[n].hash then Thinned(ps[..n]) else Thinned(ps[..n]) + [ps[n]]
  }

  /** `pts` are exactly the points of the servers in `names`. */
  ghost predicate AllPoints(pts: seq<Point>, names: seq<Bytes>) {
    && (forall p | p in pts :: p.node < |names| && p.hash in PointsOf(names[p.node]))
    && (forall i, x | 0 <= i < |names| && x in PointsOf(names[i]) :: Point(x, i) in pts)
  }

  ghost predicate ByHash(ps: seq<Point>) {
    forall i, j | 0 <= i < j < |ps| :: ps[i].hash <= ps[j].hash
  }

  /** `p` is the first point of `ps` with its hash. */
  ghost predicate FirstWithHash(ps: seq<Point>, p: Point) {
    exists i :: 0 <= i < |ps| && ps[i] == p && AllBelow(ps, i, p.hash)
  }

  ghost predicate AllBelow(ps: seq<Point>, n: nat, x: nat)
    requires n <= |ps|
  {
    forall j | 0 <= j < n :: ps[j].hash < x
  }

  lemma {:induction false} ThinnedEnds(ps: seq<Point>)
    requires ps != []
    ensures Thinned(ps) != [] && Thinned(ps)[|Thinned(ps)| - 1].hash == ps[|ps| - 1].hash
  {
    var n := |ps| - 1;
    if n > 0 && ps[n - 1].hash == ps[n].hash {
      ThinnedEnds(ps[..n]);
    }
  }

  lemma {:induction false} ThinnedAscends(ps: seq<Point>)
    requires ByHash(ps)
    ensures forall i, j | 0 <= i < j < |Thinned(ps)| :: Thinned(ps)[i].hash < Thinned(ps)[j].hash
  {
    if ps != [] {
      var n := |ps| - 1;
      ThinnedAscends(ps[..n]);
      if n > 0 && ps[n - 1].hash != ps[n].hash {
        ThinnedEnds(ps[..n]);
        assert ps[n - 1].hash < ps[n].hash;
        hide Thinned;
        AscendsOn(Thinned(ps[..n]), ps[n]);
      }
    }
  }

  lemma AscendsOn(ts: seq<Point>, p: Point)
    requires ts != [] && ts[|ts| - 1].hash < p.hash
    requires forall i, j | 0 <= i < j < |ts| :: ts[i].hash < ts[j].hash
    ensures forall i, j | 0 <= i < j < |ts + [p]| :: (ts + [p])[i].hash < (ts + [p])[j].hash
  {
  }

  lemma {:induction false} ThinnedAreFirsts(ps: seq<Point>, p: Point)
    requires ByHash(ps) && p in Thinned(ps)
    ensures FirstWithHash(ps, p)
  {
    var n := |ps| - 1;
    var short := ps[..n];
    if p in Thinned(short) {
      ThinnedAreFirsts(short, p);
      var i :| 0 <= i < |short| && short[i] == p && AllBelow(short, i, p.hash);
      assert ps[i] == p && AllBelow(ps, i, p.hash);
    } else {
      assert p == ps[n] && AllBelow(ps, n, p.hash);
    }
  }

  lemma {:induction false} ThinnedIsComplete(ps: seq<Point>, p: Point)
    requires p in ps
    ensures p.hash in Hashes(Thinned(ps))
  {
    var n := |ps| - 1;
    if p in ps[..n] {
      ThinnedIsComplete(ps[..n], p);
      assert forall q | q in Thinned(ps[..n]) :: q in Thinned(ps);
    } else {
      assert p == ps[n];
      ThinnedEnds(ps);
    }
  }

  /** However it was sorted, the thinned list of all points is the ring of the names. */
  lemma ThinnedIsRing(points: seq<Point>, sorted: seq<Point>, names: seq<Bytes>)
    requires AllPoints(points, names) && multiset(sorted) == multiset(points)
    requires Placed(sorted, names) && Sorted(sorted, names)
    ensures IsRing(Thinned(sorted), names, PointsOf)
  {
    hide PointsOf, Thinned, Less, IsOwner;
    var ring := Thinned(sorted);
    SortedByHash(sorted, names);
    ThinnedAscends(sorted);
    SameMembers(sorted, points);
    forall p | p in ring
      ensures p.node < |names| && IsOwner(PointsOf, NameSet(names), p.hash, names[p.node])
    {
      ThinnedAreFirsts(sorted, p);
      FirstIsOwner(points, sorted, names, p);
    }
    forall n, x | n in names && x in PointsOf(n)
      ensures x in Hashes(ring)
    {
      var k :| 0 <= k < |names| && names[k] == n;
      assert Point(x, k) in sorted;
      ThinnedIsComplete(sorted, Point(x, k));
    }
  }

  lemma FirstIsOwner(points: seq<Point>, sorted: seq<Point>, names: seq<Bytes>, p: Point)
    requires AllPoints(points, names) && forall q :: q in sorted <==> q in points
    requires Placed(sorted, names) && Sorted(sorted, names) && FirstWithHash(sorted, p)
    ensures p.node < |names| && IsOwner(PointsOf, NameSet(names), p.hash, names[p.node])
  {
    hide PointsOf, Less;
    var i :| 0 <= i < |sorted| && sorted[i] == p && AllBelow(sorted, i, p.hash);
    assert p in sorted && p in points;
    forall m | m in NameSet(names) && p.hash in PointsOf(m)
      ensures !Less(m, names[p.node])
    {
      var k :| 0 <= k < |names| && names[k] == m;
      var q := Point(p.hash, k);
      assert q in sorted;
      var j :| 0 <= j < |sorted| && sorted[j] == q;
      if i < j {
        assert !Before(q, p, names);
      } else {
        LessIsTotal(m, m);
      }
    }
  }

  lemma SortedByHash(ps: seq<Point>, names: seq<Bytes>)
    requires Placed(ps, names) && Sorted(ps, names)
    ensures ByHash(ps)
  {
    forall i, j | 0 <= i < j < |ps|
      ensures ps[i].hash <= ps[j].hash
    {
      assert !Before(ps[j], ps[i], names);
    }
  }

  lemma SameMembers(a: seq<Point>, b: seq<Point>)
    requires multiset(a) == multiset(b)
    ensures forall p :: p in a <==> p in b
  {
    assert forall p :: p in a <==> p in multiset(a);
    assert forall p :: p in b <==> p in multiset(b);
  }

  // ---- building ----

  /** The points of the first `n` names. */
  ghost predicate PointsSoFar(pts: seq<Point>, names: seq<Bytes>, n: nat)
    requires n <= |names|
  {
    AllPoints(pts, names[..n])
  }

  ghost predicate ServerPoints(ps: seq<Point>, name: Bytes, node: nat, n: nat) {
    |ps| == n && forall k | 0 <= k < n :: ps[k] == Point(PointAt(name, k), node)
  }

  lemma PointsGrow(pts: seq<Point>, ps: seq<Point>, names: seq<Bytes>, n: nat)
    requires n < |names| && PointsSoFar(pts, names, n) && ServerPoints(ps, names[n], n, POINTS)
    ensures PointsSoFar(pts + ps, names, n + 1)
  {
    hide PointAt;
    var more := names[..n + 1];
    forall p | p in pts + ps
      ensures p.node < |more| && p.hash in PointsOf(more[p.node])
    {
      if p !in pts {
        var k :| 0 <= k < POINTS && ps[k] == p;
        assert PointAt(names[n], k) in PointsOf(names[n]);
      }
    }
    forall i, x | 0 <= i < |more| && x in PointsOf(more[i])
      ensures Point(x, i) in pts + ps
    {
      if i < n {
        assert names[..n][i] == more[i];
        assert Point(x, i) in pts;
      } else {
        var k :| 0 <= k < POINTS && PointAt(names[n], k) == x;
        assert ps[k] == Point(x, i);
      }
    }
  }

  /** The Rust client's ring: all points, sorted, the first of each hash kept. */
  method RustRing(names: seq<Bytes>) returns (ring: seq<Point>)
    ensures IsRing(ring, names, PointsOf)
  {
    hide PointsSoFar, ServerPoints, Murmur, PointsOf, IsRing, Thinned, Sort;
    var points: seq<Point> := [];
    assert PointsSoFar(points, names, 0) by { NoPoints(names); }
    for i := 0 to |names|
      invariant PointsSoFar(points, names, i)
    {
      var ps: seq<Point> := [];
      NoServerPoints(names[i], i);
      for p := 0 to POINTS
        invariant ServerPoints(ps, names[i], i, p)
      {
        var h := RustHash(PointText(names[i], p));
        OneServerPoint(ps, names[i], i, p, h);
        ps := ps + [Point(h, i)];
      }
      PointsGrow(points, ps, names, i);
      points := points + ps;
    }
    Complete(points, names);
    var sorted := Sort(points, names);
    SortSorts(points, names);
    ThinnedIsRing(points, sorted, names);
    ring := Thinned(sorted);
  }

  lemma NoPoints(names: seq<Bytes>)
    ensures PointsSoFar([], names, 0)
  {
  }

  lemma NoServerPoints(name: Bytes, node: nat)
    ensures ServerPoints([], name, node, 0)
  {
  }

  lemma OneServerPoint(ps: seq<Point>, name: Bytes, node: nat, n: nat, h: nat)
    requires ServerPoints(ps, name, node, n) && h == Murmur(PointText(name, n))
    ensures ServerPoints(ps + [Point(h, node)], name, node, n + 1)
  {
    hide Murmur;
  }

  lemma Complete(points: seq<Point>, names: seq<Bytes>)
    requires PointsSoFar(points, names, |names|)
    ensures AllPoints(points, names) && Placed(points, names)
  {
    hide PointsOf;
    assert names[..|names|] == names;
  }

  /** The TypeScript client's ring: the same points, compacted into two arrays while walking
      the sorted list. */
  method TsRing(names: seq<Bytes>) returns (ring: seq<Point>)
    ensures IsRing(ring, names, PointsOf)
  {
    hide PointsSoFar, ServerPoints, Murmur, PointsOf, IsRing, Sort;
    var points: seq<Point> := [];
    assert PointsSoFar(points, names, 0) by { NoPoints(names); }
    for i := 0 to |names|
      invariant PointsSoFar(points, names, i)
    {
      var ps: seq<Point> := [];
      NoServerPoints(names[i], i);
      for p := 0 to POINTS
        invariant ServerPoints(ps, names[i], i, p)
      {
        var h := TsHash(PointText(names[i], p));
        OneServerPoint(ps, names[i], i, p, h);
        ps := ps + [Point(h, i)];
      }
      PointsGrow(points, ps, names, i);
      points := points + ps;
    }
    Complete(points, names);
    var sorted := TsSort(points, names);
    SortSorts(points, names);
    ThinnedIsRing(points, sorted, names);
    ring := TsCompact(sorted);
  }

  /** Sorting with the client's own comparison of two points. */
  method TsSort(points: seq<Point>, names: seq<Bytes>) returns (sorted: seq<Point>)
    requires Placed(points, names)
    ensures sorted == Sort(points, names)
  {
    sorted := [];
    for i := 0 to |points|
      invariant Placed(points[..i], names) && sorted == Sort(points[..i], names)
    {
      assert points[..i + 1][..i] == points[..i] && points[i] in points;
      sorted := TsInsert(sorted, points[i], names);
    }
    assert points[..|points|] == points;
  }

  method TsInsert(ps: seq<Point>, x: Point, names: seq<Bytes>) returns (r: seq<Point>)
    requires Placed(ps, names) && x.node < |names|
    ensures r == Insert(ps, x, names)
    decreases |ps|
  {
    if ps == [] {
      return [x];
    }
    assert ps[0] in ps;
    var d: int := x.hash - ps[0].hash;
    if d == 0 {
      d := TsCompare(names[x.node], names[ps[0].node]);
    }
    if d < 0 {
      return [x] + ps;
    }
    r := TsInsert(ps[1..], x, names);
    r := [ps[0]] + r;
  }

  /** Copy the first point of each hash into the hash and owner arrays. */
  method TsCompact(points: seq<Point>) returns (ring: seq<Point>)
    ensures ring == Thinned(points)
  {
    var hashes, owners := new nat[|points|], new nat[|points|];
    var n := 0;
    for i := 0 to |points|
      invariant 0 <= n == |Thinned(points[..i])| <= i
      invariant Zipped(hashes[..], owners[..], n) == Thinned(points[..i])
    {
      var p := points[i];
      assert points[..i + 1][..i] == points[..i];
      if i > 0 {
        ThinnedEnds(points[..i]);
        ZippedLast(hashes[..], owners[..], n);
      }
      if n > 0 && hashes[n - 1] == p.hash {
        continue;
      }
      ghost var hs, os := hashes[..], owners[..];
      hashes[n] := p.hash;
      owners[n] := p.node;
      ZippedGrows(hs, os, hashes[..], owners[..], n);
      n := n + 1;
    }
    assert points[..|points|] == points;
    ring := Zipped(hashes[..], owners[..], n);
  }

  /** The first `n` places of the two arrays as one list of points. */
  function Zipped(hashes: seq<nat>, owners: seq<nat>, n: nat): (r: seq<Point>)
    requires n <= |hashes| && n <= |owners|
    ensures |r| == n
  {
    if n == 0 then [] else Zipped(hashes, owners, n - 1) + [Point(hashes[n - 1], owners[n - 1])]
  }

  lemma ZippedLast(hashes: seq<nat>, owners: seq<nat>, n: nat)
    requires n <= |hashes| && n <= |owners|
    ensures n > 0 ==> Zipped(hashes, owners, n)[n - 1].hash == hashes[n - 1]
  {
  }

  lemma {:induction false} ZippedSame(hs: seq<nat>, os: seq<nat>, hs': seq<nat>, os': seq<nat>, n: nat)
    requires n <= |hs| == |hs'| && n <= |os| == |os'|
    requires forall i | 0 <= i < n :: hs[i] == hs'[i] && os[i] == os'[i]
    ensures Zipped(hs, os, n) == Zipped(hs', os', n)
  {
    if n > 0 {
      ZippedSame(hs, os, hs', os', n - 1);
    }
  }

  lemma ZippedGrows(hs: seq<nat>, os: seq<nat>, hs': seq<nat>, os': seq<nat>, n: nat)
    requires n < |hs| == |hs'| && n < |os| == |os'|
    requires forall i | 0 <= i < n :: hs[i] == hs'[i] && os[i] == os'[i]
    ensures Zipped(hs', os', n + 1) == Zipped(hs, os, n) + [Point(hs'[n], os'[n])]
  {
    ZippedSame(hs, os, hs', os', n);
  }

  /** The TypeScript client's name comparison: negative, zero or positive as the names compare. */
  method TsCompare(a: Bytes, b: Bytes) returns (d: int)
    ensures d < 0 <==> Less(a, b)
    ensures d == 0 <==> a == b
  {
    var n := if |a| < |b| then |a| else |b|;
    for i := 0 to n
      invariant a[..i] == b[..i]
      invariant Less(a, b) == Less(a[i..], b[i..])
    {
      d := a[i] as int - b[i] as int;
      if d != 0 {
        return;
      }
      assert a[i..][1..] == a[i + 1..] && b[i..][1..] == b[i + 1..];
      assert a[..i + 1] == a[..i] + [a[i]] && b[..i + 1] == b[..i] + [b[i]];
    }
    d := |a| - |b|;
    assert |a| == |b| ==> a == a[..n] && b == b[..n];
    LessIsTotal(a, a);
  }

  // ---- locating ----

  /** The first point at or after `h`, or the length if there is none. */
  method LowerBound(ring: seq<Point>, h: nat) returns (lo: nat)
    requires forall i, j | 0 <= i < j < |ring| :: ring[i].hash < ring[j].hash
    ensures lo <= |ring|
    ensures forall i | 0 <= i < lo :: ring[i].hash < h
    ensures forall i | lo <= i < |ring| :: ring[i].hash >= h
  {
    lo := 0;
    var hi := |ring|;
    while lo < hi
      invariant 0 <= lo <= hi <= |ring|
      invariant forall i | 0 <= i < lo :: ring[i].hash < h
      invariant forall i | hi <= i < |ring| :: ring[i].hash >= h
    {
      var mid := (lo + hi) / 2;
      if ring[mid].hash < h {
        lo := mid + 1;
      } else {
        hi := mid;
      }
    }
  }

  /** The server a key of hash `h` goes to. */
  method Locate(ring: seq<Point>, h: nat, live: nat -> bool) returns (node: nat)
    requires ring != [] && forall i, j | 0 <= i < j < |ring| :: ring[i].hash < ring[j].hash
    ensures exists p :: GoesTo(ring, live, h, p) && p.node == node
  {
    var n := |ring|;
    var at := LowerBound(ring, h);
    var start := if at == n then 0 else at;
    for i := 0 to n
      invariant forall j | 0 <= j < i :: !live(ring[Round(start, j, n)].node)
    {
      RoundIsModulo(start, i, n);
      node := ring[(start + i) % n].node;
      if live(node) {
        FirstLive(ring, live, h, at, i);
        assert GoesTo(ring, live, h, ring[Round(start, i, n)]);
        return;
      }
    }
    NobodyLive(ring, live, h, at);
    assert GoesTo(ring, live, h, ring[start]);
    node := ring[start].node;
  }

  /** Position `i` steps round from `start` on a circle of `n`. */
  function Round(start: nat, i: nat, n: nat): (k: nat)
    requires start < n && i < n
    ensures k < n
  {
    if start + i < n then start + i else start + i - n
  }

  lemma RoundIsModulo(start: nat, i: nat, n: nat)
    requires start < n && i < n
    ensures (start + i) % n == Round(start, i, n)
  {
    var k := Round(start, i, n);
    ModUnique(start + i, n, if start + i < n then 0 else 1, k);
  }

  lemma FirstLive(ring: seq<Point>, live: nat -> bool, h: nat, at: nat, i: nat)
    requires at <= |ring| && i < |ring| && forall a, b | 0 <= a < b < |ring| :: ring[a].hash < ring[b].hash
    requires forall k | 0 <= k < at :: ring[k].hash < h
    requires forall k | at <= k < |ring| :: ring[k].hash >= h
    requires var start := if at == |ring| then 0 else at;
      && live(ring[Round(start, i, |ring|)].node)
      && forall j | 0 <= j < i :: !live(ring[Round(start, j, |ring|)].node)
    ensures var start := if at == |ring| then 0 else at;
      GoesTo(ring, live, h, ring[Round(start, i, |ring|)])
  {
    var n := |ring|;
    var start := if at == n then 0 else at;
    var k := Round(start, i, n);
    var x := ring[k].hash;
    assert ring[k] in ring && x in Accepted(ring, live);
    forall y | y in Accepted(ring, live)
      ensures if x >= h then y < h || x <= y else y < h && x <= y
    {
      var p :| p in ring && live(p.node) && p.hash == y;
      var j :| 0 <= j < n && ring[j] == p;
      var steps := if j >= start then j - start else j + n - start;
      assert Round(start, steps, n) == j;
      assert steps >= i;
    }
  }

  lemma NobodyLive(ring: seq<Point>, live: nat -> bool, h: nat, at: nat)
    requires at <= |ring| && ring != [] && forall a, b | 0 <= a < b < |ring| :: ring[a].hash < ring[b].hash
    requires forall k | 0 <= k < at :: ring[k].hash < h
    requires forall k | at <= k < |ring| :: ring[k].hash >= h
    requires var start := if at == |ring| then 0 else at;
      forall j | 0 <= j < |ring| :: !live(ring[Round(start, j, |ring|)].node)
    ensures var start := if at == |ring| then 0 else at;
      GoesTo(ring, live, h, ring[start])
  {
    var n := |ring|;
    var start := if at == n then 0 else at;
    forall p | p in ring
      ensures !live(p.node)
    {
      var j :| 0 <= j < n && ring[j] == p;
      var steps := if j >= start then j - start else j + n - start;
      assert Round(start, steps, n) == j;
    }
    assert Accepted(ring, live) == {};
    var x := ring[start].hash;
    assert ring[start] in ring && x in Hashes(ring);
    forall y | y in Hashes(ring)
      ensures if x >= h then y < h || x <= y else y < h && x <= y
    {
      var p :| p in ring && p.hash == y;
      var j :| 0 <= j < n && ring[j] == p;
    }
  }

  // ---- the two clients ----

  /** `node` is where some ring of `names` sends `key`. */
  ghost predicate Picks(names: seq<Bytes>, key: Bytes, live: nat -> bool, node: nat) {
    exists ring, p :: IsRing(ring, names, PointsOf) && GoesTo(ring, live, Murmur(key), p) && p.node == node
  }

  lemma RingIsNotEmpty(ring: seq<Point>, names: seq<Bytes>)
    requires IsRing(ring, names, PointsOf) && names != []
    ensures ring != [] && forall i, j | 0 <= i < j < |ring| :: ring[i].hash < ring[j].hash
  {
    hide PointAt;
    var x := PointAt(names[0], 0);
    assert names[0] in names && x in PointsOf(names[0]);
    assert x in Hashes(ring);
  }

  method RustPick(names: seq<Bytes>, key: Bytes, live: nat -> bool) returns (node: nat)
    requires names != []
    ensures Picks(names, key, live, node)
  {
    hide IsRing, GoesTo, Murmur;
    var ring := RustRing(names);
    RingIsNotEmpty(ring, names);
    var h := RustHash(key);
    node := Locate(ring, h, live);
  }

  method TsPick(names: seq<Bytes>, key: Bytes, live: nat -> bool) returns (node: nat)
    requires names != []
    ensures Picks(names, key, live, node)
  {
    hide IsRing, GoesTo, Murmur;
    var ring := TsRing(names);
    RingIsNotEmpty(ring, names);
    var h := TsHash(key);
    node := Locate(ring, h, live);
  }

  /** Whichever client built it and however the servers were listed, a key goes to the same
      server name when the same servers are up. */
  lemma ClientsAgree(names: seq<Bytes>, live: nat -> bool, node: nat,
                     names': seq<Bytes>, live': nat -> bool, node': nat, key: Bytes)
    requires NameSet(names) == NameSet(names')
    requires forall i, j | 0 <= i < |names| && 0 <= j < |names'| && names[i] == names'[j] :: live(i) == live'(j)
    requires Picks(names, key, live, node) && Picks(names', key, live', node')
    ensures node < |names| && node' < |names'| && names[node] == names'[node']
  {
    hide PointsOf, Murmur;
    var ring, p :| IsRing(ring, names, PointsOf) && GoesTo(ring, live, Murmur(key), p) && p.node == node;
    var ring', q :| IsRing(ring', names', PointsOf) && GoesTo(ring', live', Murmur(key), q) && q.node == node';
    RingsAgree(ring, names, live, p, ring', names', live', q, PointsOf, Murmur(key));
  }

  /** Skipping `s` is rebuilding without it for every key if and only if no point of `s` hides a
      point of another server: the text a hidden point is hashed from is itself a key. */
  lemma SkippingIsRebuildingForKeys(ring: seq<Point>, names: seq<Bytes>, live: nat -> bool,
                                    ring': seq<Point>, names': seq<Bytes>, s: Bytes)
    requires IsRing(ring, names, PointsOf) && IsRing(ring', names', PointsOf) && NameSet(names') == NameSet(names) - {s}
    requires forall i | 0 <= i < |names| :: live(i) == (names[i] != s)
    ensures (forall key :: SameAt(ring, names, live, ring', names', Murmur(key))) <==>
            forall x: nat :: !Hidden(PointsOf, NameSet(names), s, x)
  {
    hide IsRing, SameAt, Murmur;
    SkippingIsRebuilding(ring, names, live, ring', names', PointsOf, s);
    forall x: nat | Hidden(PointsOf, NameSet(names), s, x)
      ensures exists key :: !SameAt(ring, names, live, ring', names', Murmur(key))
    {
      HiddenDiffers(ring, names, live, ring', names', PointsOf, s, x);
      var p :| 0 <= p < POINTS && PointAt(s, p) == x;
      assert !SameAt(ring, names, live, ring', names', Murmur(PointText(s, p)));
    }
  }
}
