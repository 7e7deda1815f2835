/** The consistent-hash ring: what it means for a set of server names, whatever order they are
    listed in, and what losing a server changes. The points a name puts on the ring are any
    function of the name here; `Rings` uses the hash both clients use. */
module Ring {
  import opened Base

  type Points = Bytes -> set<nat>

  /** Names compare byte by byte. */
  predicate Less(a: Bytes, b: Bytes) {
    b != [] && (a == [] || a[0] < b[0] || (a[0] == b[0] && Less(a[1..], b[1..])))
  }

  lemma {:induction false} LessIsTotal(a: Bytes, b: Bytes)
    ensures !Less(a, b) && !Less(b, a) ==> a == b
    ensures !(Less(a, b) && Less(b, a))
    ensures !Less(a, a)
  {
    if a != [] && b != [] {
      LessIsTotal(a[1..], b[1..]);
      assert a == [a[0]] + a[1..] && b == [b[0]] + b[1..];
    }
    if a != [] {
      LessIsTotal(a[1..], a[1..]);
    }
  }

  lemma {:induction false} LessIsTransitive(a: Bytes, b: Bytes, c: Bytes)
    requires Less(a, b) && Less(b, c)
    ensures Less(a, c)
  {
    if a != [] && a[0] == b[0] && b[0] == c[0] {
      LessIsTransitive(a[1..], b[1..], c[1..]);
    }
  }

  /** A point of the circle and the server it belongs to, by its place in the list. */
  datatype Point = Point(hash: nat, node: nat)

  function NameSet(names: seq<Bytes>): set<Bytes> {
    set n | n in names
  }

  /** The owner of a point: the least name that has it. */
  ghost predicate IsOwner(pts: Points, names: set<Bytes>, x: nat, n: Bytes) {
    n in names && x in pts(n) && forall m | m in names && x in pts(m) :: !Less(m, n)
  }

  lemma OwnerIsUnique(pts: Points, names: set<Bytes>, x: nat, n: Bytes, m: Bytes)
    requires IsOwner(pts, names, x, n) && IsOwner(pts, names, x, m)
    ensures n == m
  {
    LessIsTotal(n, m);
  }

  /** A ring for `names`: every point of every server once, in ascending order, with its owner. */
  ghost predicate IsRing(ring: seq<Point>, names: seq<Bytes>, pts: Points) {
    && (forall i, j | 0 <= i < j < |ring| :: ring[i].hash < ring[j].hash)
    && (forall p | p in ring :: p.node < |names| && IsOwner(pts, NameSet(names), p.hash, names[p.node]))
    && (forall n, x | n in names && x in pts(n) :: x in Hashes(ring))
  }

  ghost function Hashes(ring: seq<Point>): set<nat> {
    set p | p in ring :: p.hash
  }

  /** The points whose owner is accepted. */
  ghost function Accepted(ring: seq<Point>, live: nat -> bool): set<nat> {
    set p | p in ring && live(p.node) :: p.hash
  }

  /** `x` is the first of `points` at or after `h`, going round the end. */
  ghost predicate IsFirst(points: set<nat>, h: nat, x: nat) {
    && x in points
    && if x >= h then forall y | y in points :: y < h || x <= y else forall y | y in points :: y < h && x <= y
  }

  lemma FirstIsUnique(points: set<nat>, h: nat, x: nat, y: nat)
    requires IsFirst(points, h, x) && IsFirst(points, h, y)
    ensures x == y
  {
  }

  /** Where a key of hash `h` goes: the owner of the first point round from `h` that is
      accepted, or of the first point at all if none is. */
  ghost predicate GoesTo(ring: seq<Point>, live: nat -> bool, h: nat, p: Point) {
    && p in ring
    && if Accepted(ring, live) != {} then live(p.node) && IsFirst(Accepted(ring, live), h, p.hash)
       else IsFirst(Hashes(ring), h, p.hash)
  }

  // ---- the list order does not matter ----

  lemma SameHashes(ring: seq<Point>, names: seq<Bytes>, ring': seq<Point>, names': seq<Bytes>, pts: Points)
    requires IsRing(ring, names, pts) && IsRing(ring', names', pts) && NameSet(names) == NameSet(names')
    ensures Hashes(ring) <= Hashes(ring')
  {
    forall x | x in Hashes(ring)
      ensures x in Hashes(ring')
    {
      var p :| p in ring && p.hash == x;
      assert names[p.node] in NameSet(names');
    }
  }

  lemma SameAccepted(ring: seq<Point>, names: seq<Bytes>, live: nat -> bool,
                     ring': seq<Point>, names': seq<Bytes>, live': nat -> bool, pts: Points)
    requires IsRing(ring, names, pts) && IsRing(ring', names', pts) && NameSet(names) == NameSet(names')
    requires forall i, j | 0 <= i < |names| && 0 <= j < |names'| && names[i] == names'[j] :: live(i) == live'(j)
    ensures Accepted(ring, live) <= Accepted(ring', live')
  {
    SameHashes(ring, names, ring', names', pts);
    forall x | x in Accepted(ring, live)
      ensures x in Accepted(ring', live')
    {
      var p :| p in ring && live(p.node) && p.hash == x;
      assert x in Hashes(ring);
      var q :| q in ring' && q.hash == x;
      OwnerIsUnique(pts, NameSet(names), x, names[p.node], names'[q.node]);
    }
  }

  /** Two clients with the same servers under the same names, listed in any order, and the same
      servers up, send every key to the same server. */
  lemma RingsAgree(ring: seq<Point>, names: seq<Bytes>, live: nat -> bool, p: Point,
                   ring': seq<Point>, names': seq<Bytes>, live': nat -> bool, q: Point, pts: Points, h: nat)
    requires IsRing(ring, names, pts) && IsRing(ring', names', pts) && NameSet(names) == NameSet(names')
    requires forall i, j | 0 <= i < |names| && 0 <= j < |names'| && names[i] == names'[j] :: live(i) == live'(j)
    requires GoesTo(ring, live, h, p) && GoesTo(ring', live', h, q)
    ensures p.hash == q.hash && names[p.node] == names'[q.node]
  {
    SameHashes(ring, names, ring', names', pts);
    SameHashes(ring', names', ring, names, pts);
    SameAccepted(ring, names, live, ring', names', live', pts);
    SameAccepted(ring', names', live', ring, names, live, pts);
    if Accepted(ring, live) != {} {
      FirstIsUnique(Accepted(ring, live), h, p.hash, q.hash);
    } else {
      FirstIsUnique(Hashes(ring), h, p.hash, q.hash);
    }
    OwnerIsUnique(pts, NameSet(names), p.hash, names[p.node], names'[q.node]);
  }

  // ---- losing a server ----

  function All(node: nat): bool {
    true
  }

  lemma AllAccepted(ring: seq<Point>)
    ensures Accepted(ring, All) == Hashes(ring)
  {
  }

  /** Without `s`, a point keeps the owner it had if that was not `s`. */
  lemma OwnerWithout(pts: Points, names: set<Bytes>, s: Bytes, x: nat, n: Bytes)
    requires IsOwner(pts, names, x, n) && n != s
    ensures IsOwner(pts, names - {s}, x, n)
  {
  }

  /** Rebuilding the ring without server `s` moves only the keys `s` owned: every other key
      keeps its server, collisions included. */
  lemma LosingAServerMovesOnlyItsKeys(ring: seq<Point>, names: seq<Bytes>, p: Point,
                                      ring': seq<Point>, names': seq<Bytes>, q: Point, pts: Points, s: Bytes, h: nat)
    requires IsRing(ring, names, pts) && IsRing(ring', names', pts) && NameSet(names') == NameSet(names) - {s}
    requires GoesTo(ring, All, h, p) && GoesTo(ring', All, h, q)
    requires names[p.node] != s
    ensures names'[q.node] == names[p.node]
  {
    AllAccepted(ring);
    AllAccepted(ring');
    OwnerWithout(pts, NameSet(names), s, p.hash, names[p.node]);
    assert names[p.node] in names';
    assert p.hash in Hashes(ring');
    SubsetHashes(ring, names, ring', names', pts, s);
    FirstStays(Hashes(ring), Hashes(ring'), h, p.hash);
    FirstIsUnique(Hashes(ring'), h, p.hash, q.hash);
    OwnerIsUnique(pts, NameSet(names'), p.hash, names[p.node], names'[q.node]);
  }

  lemma SubsetHashes(ring: seq<Point>, names: seq<Bytes>, ring': seq<Point>, names': seq<Bytes>, pts: Points, s: Bytes)
    requires IsRing(ring, names, pts) && IsRing(ring', names', pts) && NameSet(names') == NameSet(names) - {s}
    ensures Hashes(ring') <= Hashes(ring)
  {
    forall x | x in Hashes(ring')
      ensures x in Hashes(ring)
    {
      var p :| p in ring' && p.hash == x;
      assert names'[p.node] in NameSet(names');
      assert names'[p.node] in names;
    }
  }

  lemma FirstStays(points: set<nat>, fewer: set<nat>, h: nat, x: nat)
    requires IsFirst(points, h, x) && fewer <= points && x in fewer
    ensures IsFirst(fewer, h, x)
  {
  }

  // ---- skipping a server instead of rebuilding ----

  /** `s` hides another server's point at `x`: both have it and `s` has the lesser name. */
  ghost predicate Hidden(pts: Points, names: set<Bytes>, s: Bytes, x: nat) {
    IsOwner(pts, names, x, s) && exists n :: n in names && n != s && x in pts(n)
  }

  /** Skipping `s` on the full ring sends a key where the ring rebuilt without `s` sends it,
      to the same point of the same server, if and only if that point is not one that `s` was
      hiding; otherwise both agree only by the coincidence that two points have one owner. */
  lemma SkippingIsRebuildingUnlessHidden(ring: seq<Point>, names: seq<Bytes>, live: nat -> bool, p: Point,
                                         ring': seq<Point>, names': seq<Bytes>, q: Point, pts: Points, s: Bytes, h: nat)
    requires IsRing(ring, names, pts) && IsRing(ring', names', pts) && NameSet(names') == NameSet(names) - {s}
    requires forall i | 0 <= i < |names| :: live(i) == (names[i] != s)
    requires GoesTo(ring, live, h, p) && GoesTo(ring', All, h, q)
    ensures !Hidden(pts, NameSet(names), s, q.hash) <==> p.hash == q.hash && names'[q.node] == names[p.node]
  {
    AllAccepted(ring');
    var kept := Accepted(ring, live);
    KeptInRebuilt(ring, names, live, ring', names', pts, s);
    RebuiltIsKeptOrHidden(ring, names, live, ring', names', pts, s, q);
    if !Hidden(pts, NameSet(names), s, q.hash) {
      FirstStays(Hashes(ring'), kept, h, q.hash);
      FirstIsUnique(kept, h, p.hash, q.hash);
      OwnerWithout(pts, NameSet(names), s, p.hash, names[p.node]);
      OwnerIsUnique(pts, NameSet(names'), p.hash, names[p.node], names'[q.node]);
    } else if p.hash == q.hash {
      OwnerIsUnique(pts, NameSet(names), p.hash, names[p.node], s);
      assert names'[q.node] in NameSet(names');
    }
  }

  lemma KeptInRebuilt(ring: seq<Point>, names: seq<Bytes>, live: nat -> bool,
                      ring': seq<Point>, names': seq<Bytes>, pts: Points, s: Bytes)
    requires IsRing(ring, names, pts) && IsRing(ring', names', pts) && NameSet(names') == NameSet(names) - {s}
    requires forall i | 0 <= i < |names| :: live(i) == (names[i] != s)
    ensures Accepted(ring, live) <= Hashes(ring')
  {
    forall x | x in Accepted(ring, live)
      ensures x in Hashes(ring')
    {
      var p :| p in ring && live(p.node) && p.hash == x;
      assert names[p.node] in NameSet(names');
      assert names[p.node] in names';
    }
  }

  lemma RebuiltIsKeptOrHidden(ring: seq<Point>, names: seq<Bytes>, live: nat -> bool,
                              ring': seq<Point>, names': seq<Bytes>, pts: Points, s: Bytes, q: Point)
    requires IsRing(ring, names, pts) && IsRing(ring', names', pts) && NameSet(names') == NameSet(names) - {s}
    requires forall i | 0 <= i < |names| :: live(i) == (names[i] != s)
    requires q in ring'
    ensures q.hash in Accepted(ring, live) || Hidden(pts, NameSet(names), s, q.hash)
  {
    var n := names'[q.node];
    assert n in NameSet(names');
    assert n in names && q.hash in Hashes(ring);
    var p :| p in ring && p.hash == q.hash;
    if names[p.node] != s {
      assert live(p.node);
    }
  }

  /** Some point comes first. */
  lemma {:induction false} FirstExists(points: set<nat>, h: nat)
    requires points != {}
    ensures exists x :: IsFirst(points, h, x)
  {
    var x :| x in points;
    var rest := points - {x};
    if rest == {} {
      assert points == {x};
      assert IsFirst(points, h, x);
    } else {
      FirstExists(rest, h);
      var y :| IsFirst(rest, h, y);
      assert points == rest + {x};
      assert IsFirst(points, h, if Sooner(x, y, h) then x else y);
    }
  }

  predicate Sooner(x: nat, y: nat, h: nat) {
    if x >= h then y < h || x <= y else y < h && x <= y
  }

  /** Every key goes somewhere. */
  lemma SomewhereToGo(ring: seq<Point>, live: nat -> bool, h: nat)
    requires ring != []
    ensures exists p :: GoesTo(ring, live, h, p)
  {
    if Accepted(ring, live) != {} {
      FirstExists(Accepted(ring, live), h);
      var x :| IsFirst(Accepted(ring, live), h, x);
      var p :| p in ring && live(p.node) && p.hash == x;
      assert GoesTo(ring, live, h, p);
    } else {
      assert ring[0].hash in Hashes(ring);
      FirstExists(Hashes(ring), h);
      var x :| IsFirst(Hashes(ring), h, x);
      var p :| p in ring && p.hash == x;
      assert GoesTo(ring, live, h, p);
    }
  }

  /** Skipping sends hash `h` to the point and the server that rebuilding sends it to. */
  ghost predicate SameAt(ring: seq<Point>, names: seq<Bytes>, live: nat -> bool,
                         ring': seq<Point>, names': seq<Bytes>, h: nat)
  {
    forall p, q | GoesTo(ring, live, h, p) && GoesTo(ring', All, h, q) ::
      p.node < |names| && q.node < |names'| && p.hash == q.hash && names[p.node] == names'[q.node]
  }

  /** Skipping `s` is rebuilding without it for every hash if and only if no point of `s` hides
      a point of another server. */
  lemma SkippingIsRebuilding(ring: seq<Point>, names: seq<Bytes>, live: nat -> bool,
                             ring': seq<Point>, names': seq<Bytes>, pts: Points, s: Bytes)
    requires IsRing(ring, names, pts) && IsRing(ring', names', pts) && NameSet(names') == NameSet(names) - {s}
    requires forall i | 0 <= i < |names| :: live(i) == (names[i] != s)
    ensures (forall h: nat :: SameAt(ring, names, live, ring', names', h)) <==>
            forall x: nat :: !Hidden(pts, NameSet(names), s, x)
  {
    hide IsRing, Hidden;
    forall h: nat, p, q | GoesTo(ring, live, h, p) && GoesTo(ring', All, h, q)
      ensures p.node < |names| && q.node < |names'|
      ensures !Hidden(pts, NameSet(names), s, q.hash) <==> p.hash == q.hash && names'[q.node] == names[p.node]
    {
      NodesInRange(ring, names, pts);
      NodesInRange(ring', names', pts);
      SkippingIsRebuildingUnlessHidden(ring, names, live, p, ring', names', q, pts, s, h);
    }
    forall x: nat | Hidden(pts, NameSet(names), s, x)
      ensures !SameAt(ring, names, live, ring', names', x)
    {
      HiddenDiffers(ring, names, live, ring', names', pts, s, x);
    }
  }

  /** At a point that `s` hides, skipping and rebuilding part. */
  lemma HiddenDiffers(ring: seq<Point>, names: seq<Bytes>, live: nat -> bool,
                      ring': seq<Point>, names': seq<Bytes>, pts: Points, s: Bytes, x: nat)
    requires IsRing(ring, names, pts) && IsRing(ring', names', pts) && NameSet(names') == NameSet(names) - {s}
    requires forall i | 0 <= i < |names| :: live(i) == (names[i] != s)
    requires Hidden(pts, NameSet(names), s, x)
    ensures !SameAt(ring, names, live, ring', names', x)
  {
    hide IsRing, Hidden;
    HiddenIsPicked(ring, names, ring', names', pts, s, x);
    SomewhereToGo(ring, live, x);
    var p :| GoesTo(ring, live, x, p);
    var q :| GoesTo(ring', All, x, q) && q.hash == x;
    SkippingIsRebuildingUnlessHidden(ring, names, live, p, ring', names', q, pts, s, x);
  }

  lemma NodesInRange(ring: seq<Point>, names: seq<Bytes>, pts: Points)
    requires IsRing(ring, names, pts)
    ensures forall p | p in ring :: p.node < |names|
  {
  }

  /** A point that `s` hides is where the rebuilt ring sends its own hash. */
  lemma HiddenIsPicked(ring: seq<Point>, names: seq<Bytes>, ring': seq<Point>, names': seq<Bytes>, pts: Points, s: Bytes, x: nat)
    requires IsRing(ring, names, pts) && IsRing(ring', names', pts) && NameSet(names') == NameSet(names) - {s}
    requires Hidden(pts, NameSet(names), s, x)
    ensures ring != [] && exists q :: GoesTo(ring', All, x, q) && q.hash == x
  {
    var n :| n in NameSet(names) && n != s && x in pts(n);
    assert n in NameSet(names') && n in names' && n in names;
    assert x in Hashes(ring') && x in Hashes(ring);
    var q :| q in ring' && q.hash == x;
    AllAccepted(ring');
    assert GoesTo(ring', All, x, q);
  }

  /** The server alone is the same if and only if the rebuilt ring's point is not hidden, or
      the first point left by the skipping happens to have the owner that point gets. */
  lemma SkippingKeepsServer(ring: seq<Point>, names: seq<Bytes>, live: nat -> bool, p: Point,
                            ring': seq<Point>, names': seq<Bytes>, q: Point, pts: Points, s: Bytes, h: nat)
    requires IsRing(ring, names, pts) && IsRing(ring', names', pts) && NameSet(names') == NameSet(names) - {s}
    requires forall i | 0 <= i < |names| :: live(i) == (names[i] != s)
    requires GoesTo(ring, live, h, p) && GoesTo(ring', All, h, q)
    ensures names[p.node] == names'[q.node] <==>
            || !Hidden(pts, NameSet(names), s, q.hash)
            || exists x, n :: IsFirst(Accepted(ring, live), h, x) && IsOwner(pts, NameSet(names), x, n)
                              && IsOwner(pts, NameSet(names) - {s}, q.hash, n)
  {
    SkippingIsRebuildingUnlessHidden(ring, names, live, p, ring', names', q, pts, s, h);
    assert names'[q.node] in NameSet(names');
    assert IsOwner(pts, NameSet(names'), q.hash, names'[q.node]);
    if x, n :| IsFirst(Accepted(ring, live), h, x) && IsOwner(pts, NameSet(names), x, n)
               && IsOwner(pts, NameSet(names) - {s}, q.hash, n)
    {
      FirstIsUnique(Accepted(ring, live), h, x, p.hash);
      OwnerIsUnique(pts, NameSet(names), x, n, names[p.node]);
      OwnerIsUnique(pts, NameSet(names'), q.hash, n, names'[q.node]);
    }
  }

  /** Two servers with the same points, the one of the lesser name out: skipping it still sends
      every key to it, because all points of the other are hidden; rebuilding sends every key
      to the other. */
  lemma TwinHidesAll(ring: seq<Point>, a: Bytes, b: Bytes, p: Point, ring': seq<Point>, q: Point, pts: Points, h: nat)
    requires Less(a, b) && pts(a) == pts(b)
    requires IsRing(ring, [a, b], pts) && IsRing(ring', [b], pts)
    requires GoesTo(ring, NotFirst, h, p) && GoesTo(ring', All, h, q)
    ensures p.node == 0 && q.node == 0
  {
    LessIsTotal(a, b);
    var names := [a, b];
    assert names[0] in NameSet(names);
    forall r | r in ring
      ensures r.node == 0
    {
      assert IsOwner(pts, NameSet(names), r.hash, names[r.node]);
      assert names[r.node] in names;
    }
  }

  predicate NotFirst(node: nat) {
    node != 0
  }
}
