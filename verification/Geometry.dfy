/** Ray-cast containment of a point in a ring (geometry.ts), over exact reals. */
module Geometry {

  /** A GeoJSON pair: x is the longitude, y the latitude. */
  datatype Point = Point(x: real, y: real)

  type Ring = seq<Point>

  predicate Straddles(p: Point, a: Point, b: Point) {
    (a.y > p.y) != (b.y > p.y)
  }

  /** The edge from b (previous vertex) to a crosses the ray from p towards growing x. */
  predicate Crosses(p: Point, a: Point, b: Point) {
    Straddles(p, a, b) && p.x < (b.x - a.x) * (p.y - a.y) / (b.y - a.y) + a.x
  }

  /** Parity of the crossings along the open path r[0], r[1], .... */
  function PathParity(p: Point, r: Ring): bool
    decreases |r|
  {
    if |r| <= 1 then false
    else PathParity(p, r[..|r| - 1]) != Crosses(p, r[|r| - 1], r[|r| - 2])
  }

  /** Parity of the crossings around the closed ring. */
  function Inside(p: Point, r: Ring): bool {
    r != [] && (PathParity(p, r) != Crosses(p, r[0], r[|r| - 1]))
  }

  method PointInRing(lon: real, lat: real, ring: Ring) returns (inside: bool)
    ensures inside == Inside(Point(lon, lat), ring)
  {
    hide Crosses;
    inside := false;
    var p := Point(lon, lat);
    var i, j := 0, |ring| - 1;
    while i < |ring|
      invariant 0 <= i <= |ring|
      invariant j == if i == 0 then |ring| - 1 else i - 1
      invariant i == 0 ==> !inside
      invariant i > 0 ==> inside == (PathParity(p, ring[..i]) != Crosses(p, ring[0], ring[|ring| - 1]))
    {
      assert ring[..i + 1][..i] == ring[..i];
      if Crosses(p, ring[i], ring[j]) {
        inside := !inside;
      }
      j, i := i, i + 1;
    }
    assert ring[..|ring|] == ring;
  }

  // ---- Crossing does not depend on the direction of the edge -----------------------

  /** Where the line through a and b reaches height h. */
  function At(a: Point, b: Point, h: real): real
    requires a.y != b.y
  {
    (b.x - a.x) * (h - a.y) / (b.y - a.y) + a.x
  }

  lemma AtIs(a: Point, b: Point, h: real)
    requires a.y != b.y
    ensures (At(a, b, h) - a.x) * (b.y - a.y) == (b.x - a.x) * (h - a.y)
  {}

  lemma AtSymmetric(a: Point, b: Point, h: real)
    requires a.y != b.y
    ensures At(a, b, h) == At(b, a, h)
  {}

  lemma CrossesSymmetric(p: Point, a: Point, b: Point)
    ensures Crosses(p, a, b) == Crosses(p, b, a)
  {}

  // ---- Paths compose ------------------------------------------------------------------

  /** Two paths that share their joint vertex: parities add. */
  lemma {:induction false} PathJoins(p: Point, r: Ring, s: Ring)
    requires r != [] && s != [] && r[|r| - 1] == s[0]
    ensures PathParity(p, r + s[1..]) == (PathParity(p, r) != PathParity(p, s))
    decreases |s|
  {
    if |s| == 1 {
      assert r + s[1..] == r;
    } else {
      var t := s[..|s| - 1];
      PathJoins(p, r, t);
      var all := r + s[1..];
      assert all[..|all| - 1] == r + t[1..];
      assert all[|all| - 1] == s[|s| - 1];
      assert all[|all| - 2] == s[|s| - 2];
    }
  }

  function Reversed(r: Ring): (s: Ring)
    ensures |s| == |r| && forall i :: 0 <= i < |r| ==> s[i] == r[|r| - 1 - i]
  {
    seq(|r|, i requires 0 <= i < |r| => r[|r| - 1 - i])
  }

  lemma {:induction false} PathReverses(p: Point, r: Ring)
    ensures PathParity(p, Reversed(r)) == PathParity(p, r)
    decreases |r|
  {
    if |r| >= 2 {
      var n := |r|;
      var t := r[..n - 1];
      PathReverses(p, t);
      var first := [r[n - 1], r[n - 2]];
      assert Reversed(r) == first + Reversed(t)[1..];
      PathJoins(p, first, Reversed(t));
      assert PathParity(p, first) == Crosses(p, r[n - 2], r[n - 1]) by {
        assert first[..1] == [r[n - 1]];
        assert !PathParity(p, [r[n - 1]]);
      }
      CrossesSymmetric(p, r[n - 2], r[n - 1]);
    }
  }

  lemma InsideIsClosedPath(p: Point, r: Ring)
    requires r != []
    ensures Inside(p, r) == PathParity(p, r + [r[0]])
  {}

  // ---- The theorems -------------------------------------------------------------------

  /** Closing the ring explicitly, by repeating its first vertex, changes nothing. */
  lemma ClosingIsFree(p: Point, r: Ring)
    requires r != []
    ensures Inside(p, r + [r[0]]) == Inside(p, r)
  {}

  /**
    Splitting a ring along a chord between two of its vertices gives the exclusive or of the two parts.
   */
  lemma ChordSplits(p: Point, r: Ring, i: nat, j: nat)
    requires i <= j < |r|
    ensures Inside(p, r) == (Inside(p, r[i..j + 1]) != Inside(p, r[j..] + r[..i + 1]))
  {
    hide Crosses;
    var a, b, c := r[..i + 1], r[i..j + 1], r[j..] + [r[0]];
    // the closed ring is a, then b, then c
    assert a + b[1..] == r[..j + 1];
    PathJoins(p, a, b);
    assert r[..j + 1] + c[1..] == r + [r[0]];
    PathJoins(p, r[..j + 1], c);
    InsideIsClosedPath(p, r);
    // the second part, as a path from r[j] round to r[i], is c then a
    assert c + a[1..] == r[j..] + r[..i + 1];
    PathJoins(p, c, a);
    CrossesSymmetric(p, r[i], r[j]);
  }

  /** Starting the ring at another vertex changes nothing. */
  lemma RotationIsFree(p: Point, r: Ring, i: nat)
    requires i < |r|
    ensures Inside(p, r[i..] + r[..i]) == Inside(p, r)
  {
    var s := r[i..] + r[..i];
    ChordSplits(p, r, i, i);
    assert r[i..i + 1] == [r[i]];
    assert s + [s[0]] == r[i..] + r[..i + 1];
    ClosingIsFree(p, s);
  }

  /** Reversing the ring changes nothing. */
  lemma ReversalIsFree(p: Point, r: Ring)
    ensures Inside(p, Reversed(r)) == Inside(p, r)
  {
    if r != [] {
      PathReverses(p, r);
      CrossesSymmetric(p, r[0], r[|r| - 1]);
    }
  }

  /** Along a path, the straddling edges are odd in number exactly when its ends lie on opposite sides. */
  lemma {:induction false} StraddleParity(p: Point, r: Ring)
    requires r != []
    requires forall i :: 0 <= i < |r| ==> p.x < r[i].x
    ensures PathParity(p, r) == Straddles(p, r[0], r[|r| - 1])
    decreases |r|
  {
    if |r| >= 2 {
      StraddleParity(p, r[..|r| - 1]);
      LeftOfBoth(p, r[|r| - 1], r[|r| - 2]);
    }
  }

  /** A straddling edge reaches the height of p between its two ends. */
  lemma AtBetween(a: Point, b: Point, h: real)
    requires a.y <= h < b.y
    ensures At(a, b, h) <= (if a.x < b.x then b.x else a.x)
    ensures At(a, b, h) >= (if a.x < b.x then a.x else b.x)
  {
    var d, e := b.y - a.y, h - a.y;
    AtIs(a, b, h);
    var k := At(a, b, h) - a.x;
    var w := b.x - a.x;
    assert k * d == w * e && 0.0 <= e < d;
    if w >= 0.0 {
      Between(k, w, d, e);
    } else {
      assert (-k) * d == (-w) * e;
      Between(-k, -w, d, e);
    }
  }

  lemma Between(k: real, w: real, d: real, e: real)
    requires k * d == w * e && 0.0 <= e < d && w >= 0.0
    ensures 0.0 <= k <= w
  {}

  lemma CrossesAt(p: Point, a: Point, b: Point)
    requires Straddles(p, a, b)
    ensures Crosses(p, a, b) <==> p.x < At(a, b, p.y)
  {}

  lemma CrossingPoint(p: Point, a: Point, b: Point)
    requires Straddles(p, a, b)
    ensures (p.x < a.x && p.x < b.x) ==> Crosses(p, a, b)
    ensures (p.x >= a.x && p.x >= b.x) ==> !Crosses(p, a, b)
  {
    CrossesAt(p, a, b);
    hide Crosses, At;
    if a.y < b.y {
      AtBetween(a, b, p.y);
    } else {
      AtBetween(b, a, p.y);
      AtSymmetric(a, b, p.y);
    }
  }

  lemma LeftOfBoth(p: Point, a: Point, b: Point)
    requires p.x < a.x && p.x < b.x
    ensures Crosses(p, a, b) == Straddles(p, a, b)
  {
    if Straddles(p, a, b) {
      CrossingPoint(p, a, b);
    }
  }

  /** All vertices are weakly left of p, weakly below it, or strictly above it, or strictly right of it. */
  predicate OutsideBox(p: Point, r: Ring) {
    || (forall i :: 0 <= i < |r| ==> p.x < r[i].x)
    || (forall i :: 0 <= i < |r| ==> r[i].x <= p.x)
    || (forall i :: 0 <= i < |r| ==> p.y < r[i].y)
    || (forall i :: 0 <= i < |r| ==> r[i].y <= p.y)
  }

  lemma {:induction false} NoCrossings(p: Point, r: Ring)
    requires (forall i :: 0 <= i < |r| ==> r[i].x <= p.x)
          || (forall i :: 0 <= i < |r| ==> p.y < r[i].y)
          || (forall i :: 0 <= i < |r| ==> r[i].y <= p.y)
    ensures !PathParity(p, r)
    decreases |r|
  {
    if |r| >= 2 {
      NoCrossings(p, r[..|r| - 1]);
      if Straddles(p, r[|r| - 1], r[|r| - 2]) {
        CrossingPoint(p, r[|r| - 1], r[|r| - 2]);
      }
    }
  }

  /** A point outside the bounding box of a ring is never inside the ring. */
  lemma OutsideBoxIsOutside(p: Point, r: Ring)
    requires OutsideBox(p, r)
    ensures !Inside(p, r)
  {
    if r != [] {
      InsideIsClosedPath(p, r);
      var c := r + [r[0]];
      if forall i :: 0 <= i < |r| ==> p.x < r[i].x {
        StraddleParity(p, c);
      } else {
        NoCrossings(p, c);
      }
    }
  }

  /** On a rectangle the test is exact, and half-open: left and bottom edges are in, right and top are out. */
  lemma RectangleIsExact(p: Point, lo: Point, hi: Point)
    requires lo.x <= hi.x && lo.y <= hi.y
    ensures Inside(p, [lo, Point(hi.x, lo.y), hi, Point(lo.x, hi.y)])
       <==> lo.x <= p.x < hi.x && lo.y <= p.y < hi.y
  {
    var se, nw := Point(hi.x, lo.y), Point(lo.x, hi.y);
    var r := [lo, se, hi, nw];
    assert r[..3] == [lo, se, hi] && [lo, se, hi][..2] == [lo, se] && [lo, se][..1] == [lo];
    assert !PathParity(p, [lo]);
    assert PathParity(p, [lo, se]) == Crosses(p, se, lo);
    assert PathParity(p, [lo, se, hi]) == (Crosses(p, se, lo) != Crosses(p, hi, se));
    assert !Crosses(p, se, lo) && !Crosses(p, nw, hi);
    VerticalEdge(p, hi, se);
    VerticalEdge(p, lo, nw);
  }

  lemma VerticalEdge(p: Point, a: Point, b: Point)
    requires a.x == b.x
    ensures Crosses(p, a, b) <==> Straddles(p, a, b) && p.x < a.x
  {}

  // ---- The parity, counted ---------------------------------------------------------------------

  /** The edge that ends at vertex i straddles the height of p, and meets it beyond p. */
  predicate EdgeCrosses(p: Point, r: Ring, i: int) {
    && 1 <= i < |r| && (r[i].y > p.y) != (r[i - 1].y > p.y)
    && p.x < (r[i - 1].x - r[i].x) * (p.y - r[i].y) / (r[i - 1].y - r[i].y) + r[i].x
  }

  function Crossings(p: Point, r: Ring): set<int> { set i | 1 <= i < |r| && EdgeCrosses(p, r, i) }

  lemma EdgeIs(p: Point, r: Ring, i: int)
    requires 1 <= i < |r|
    ensures EdgeCrosses(p, r, i) <==> Crosses(p, r[i], r[i - 1])
  {}

  lemma EdgesOfInit(p: Point, r: Ring, i: int)
    requires 1 <= i < |r| - 1
    ensures EdgeCrosses(p, r[..|r| - 1], i) <==> EdgeCrosses(p, r, i)
  {
    hide EdgeCrosses, Crosses;
    EdgeIs(p, r, i);
    EdgeIs(p, r[..|r| - 1], i);
  }

  lemma CrossingsSnoc(p: Point, r: Ring)
    requires |r| >= 2
    ensures var n := |r| - 1;
      Crossings(p, r) == Crossings(p, r[..n]) + (if Crosses(p, r[n], r[n - 1]) then {n} else {}) && n !in Crossings(p, r[..n])
  {
    hide EdgeCrosses, Crosses;
    var n := |r| - 1;
    EdgeIs(p, r, n);
    forall i | 1 <= i < n
      ensures EdgeCrosses(p, r[..n], i) <==> EdgeCrosses(p, r, i)
    {
      EdgesOfInit(p, r, i);
    }
  }

  lemma {:induction false} PathCounts(p: Point, r: Ring)
    ensures PathParity(p, r) <==> |Crossings(p, r)| % 2 == 1
    decreases |r|
  {
    hide Crosses, EdgeCrosses, Crossings;
    if |r| < 2 {
      NoCrossing(p, r);
    } else {
      PathCounts(p, r[..|r| - 1]);
      CrossingsSnoc(p, r);
    }
  }

  lemma NoCrossing(p: Point, r: Ring)
    requires |r| < 2
    ensures Crossings(p, r) == {}
  {}

  /** pointInRing is the parity of the number of edges, the closing one included, that cross the ray from the point. */
  lemma InsideCounts(p: Point, r: Ring)
    requires r != []
    ensures Inside(p, r) <==> |Crossings(p, r + [r[0]])| % 2 == 1
  {
    hide Crosses, Crossings, PathParity, Inside;
    InsideIsClosedPath(p, r);
    PathCounts(p, r + [r[0]]);
  }
}
