/** Point-in-polygon geometry of the hit tester: the even-odd crossing test for one
    ring, outer-ring-minus-holes for a polygon and union for a multipolygon.
    Coordinates are GeoJSON positions [lon, lat], taken here as exact reals. */
module Geometry {

  /** A GeoJSON position: x is the longitude, y the latitude, in degrees. */
  datatype Point = Point(x: real, y: real)

  /** A ring: closed by convention, the wrap-around edge joins the last vertex to the first. */
  type Ring = seq<Point>

  /** A polygon: ring 0 is the exterior boundary, every later ring is a hole. */
  type Polygon = seq<Ring>

  /** A multipolygon: its member polygons, read as a union. */
  type MultiPolygon = seq<Polygon>

  /** The constant added to the crossing test's denominator against division by zero. */
  const Epsilon: real := 0.000000000001

  /** The JavaScript comparison `q < a / d + b` on finite operands. A zero denominator gives
      +Infinity when a > 0 (then the comparison holds), -Infinity when a < 0 and NaN when
      a == 0 (then it fails). */
  predicate LessThanQuotientPlus(q: real, a: real, d: real, b: real) {
    if d == 0.0 then a > 0.0 else q < a / d + b
  }

  /** The `intersect` condition for the edge from vj to vi: the edge straddles the
      horizontal line through p and meets it to the right of p. */
  predicate Crosses(p: Point, vi: Point, vj: Point) {
    (vi.y > p.y) != (vj.y > p.y)
    && LessThanQuotientPlus(p.x, (vj.x - vi.x) * (p.y - vi.y), vj.y - vi.y + Epsilon, vi.x)
  }

  /** The partner index of edge i in the loop `j = i++`: the previous vertex, and for
      i == 0 the last one (the wrap-around edge). */
  function Prev(n: nat, i: nat): (j: nat)
    requires i < n
    ensures j < n
    ensures (j + 1) % n == i
  {
    if i == 0 then ModOfSelf(n); n - 1 else ModOfSmall(i, n); i - 1
  }

  lemma ModOfSelf(n: nat)
    requires n > 0
    ensures n % n == 0
  {
  }

  lemma ModOfSmall(a: nat, n: nat)
    requires a < n
    ensures a % n == a
  {
  }

  /** Whether edge i of the ring (from vertex Prev(i) to vertex i) crosses the ray from p. */
  predicate EdgeCrosses(p: Point, ring: Ring, i: nat)
    requires i < |ring|
  {
    Crosses(p, ring[i], ring[Prev(|ring|, i)])
  }

  /** The number of crossing edges among edges 0 .. k-1. */
  function CrossingsUpTo(p: Point, ring: Ring, k: nat): nat
    requires k <= |ring|
  {
    if k == 0 then 0
    else CrossingsUpTo(p, ring, k - 1) + (if EdgeCrosses(p, ring, k - 1) then 1 else 0)
  }

  /** The crossing number of p with respect to the ring, wrap-around edge included. */
  function Crossings(p: Point, ring: Ring): nat {
    CrossingsUpTo(p, ring, |ring|)
  }

  /** Even-odd rule: p is inside the ring iff its crossing number is odd. */
  predicate InRing(p: Point, ring: Ring) {
    Crossings(p, ring) % 2 == 1
  }

  /** p is in the polygon iff it is in the exterior ring and in none of the holes.
      A polygon without rings contains nothing. */
  predicate InPolygon(p: Point, poly: Polygon) {
    |poly| > 0
    && InRing(p, poly[0])
    && forall h :: 1 <= h < |poly| ==> !InRing(p, poly[h])
  }

  /** p is in the multipolygon iff some member polygon contains it. */
  predicate InMultiPolygon(p: Point, multi: MultiPolygon) {
    exists m :: 0 <= m < |multi| && InPolygon(p, multi[m])
  }

  /** `pointInRing`: toggles `inside` once per crossing edge, visiting edge (i, j) with j
      the previous vertex and, first, the wrap-around edge (0, n-1). */
  method PointInRing(p: Point, ring: Ring) returns (inside: bool)
    ensures inside == InRing(p, ring)
    ensures |ring| == 0 ==> !inside
  {
    inside := false;
    var i: int, j: int := 0, |ring| - 1;
    while i < |ring|
      invariant 0 <= i <= |ring|
      invariant j == if i == 0 then |ring| - 1 else i - 1
      invariant inside == (CrossingsUpTo(p, ring, i) % 2 == 1)
    {
      var intersect := Crosses(p, ring[i], ring[j]);
      if intersect {
        inside := !inside;
      }
      j, i := i, i + 1;
    }
  }

  /** `pointInPolygon`: false for no rings, false outside the exterior ring, false inside
      any hole, true otherwise. */
  method PointInPolygon(p: Point, poly: Polygon) returns (inside: bool)
    ensures inside == InPolygon(p, poly)
  {
    if |poly| == 0 {
      return false;
    }
    var inOuter := PointInRing(p, poly[0]);
    if !inOuter {
      return false;
    }
    var i := 1;
    while i < |poly|
      invariant 1 <= i <= |poly|
      invariant forall h :: 1 <= h < i ==> !InRing(p, poly[h])
    {
      var inHole := PointInRing(p, poly[i]);
      if inHole {
        return false;
      }
      i := i + 1;
    }
    return true;
  }

  /** `pointInMultiPolygon`: true at the first member polygon that contains p. */
  method PointInMultiPolygon(p: Point, multi: MultiPolygon) returns (inside: bool)
    ensures inside == InMultiPolygon(p, multi)
  {
    var m := 0;
    while m < |multi|
      invariant 0 <= m <= |multi|
      invariant forall k :: 0 <= k < m ==> !InPolygon(p, multi[k])
    {
      var hit := PointInPolygon(p, multi[m]);
      if hit {
        return true;
      }
      m := m + 1;
    }
    return false;
  }

  // ---------------------------------------------------------------------------
  // Properties of the crossing test

  /** Some edge among the first k crosses whenever the partial crossing count is positive. */
  lemma {:induction false} CrossingWitness(p: Point, ring: Ring, k: nat)
    requires k <= |ring|
    requires CrossingsUpTo(p, ring, k) > 0
    ensures exists i :: 0 <= i < k && EdgeCrosses(p, ring, i)
  {
    if !EdgeCrosses(p, ring, k - 1) {
      CrossingWitness(p, ring, k - 1);
    }
  }

  /** A point inside a ring lies in the ring's latitude range: some vertex is strictly
      above it and some vertex is at or below it. This is what makes pruning by bounding
      box sound in the y direction. */
  lemma InRingWithinLatitudes(p: Point, ring: Ring)
    requires InRing(p, ring)
    ensures exists i :: 0 <= i < |ring| && ring[i].y > p.y
    ensures exists j :: 0 <= j < |ring| && ring[j].y <= p.y
  {
    CrossingWitness(p, ring, |ring|);
    var i :| 0 <= i < |ring| && EdgeCrosses(p, ring, i);
    var j := Prev(|ring|, i);
    if ring[i].y > p.y {
      assert ring[j].y <= p.y;
    } else {
      assert ring[j].y > p.y;
    }
  }

  /** A ring with every vertex strictly above p (or every vertex at or below p) has no
      crossing edge, so p is outside it. */
  lemma {:induction false} OneSidedRingExcludes(p: Point, ring: Ring, k: nat)
    requires k <= |ring|
    requires (forall i :: 0 <= i < |ring| ==> ring[i].y > p.y)
          || (forall i :: 0 <= i < |ring| ==> ring[i].y <= p.y)
    ensures CrossingsUpTo(p, ring, k) == 0
  {
    if k > 0 {
      OneSidedRingExcludes(p, ring, k - 1);
      var j := Prev(|ring|, k - 1);
      assert !EdgeCrosses(p, ring, k - 1) by {
        assert (ring[k - 1].y > p.y) == (ring[j].y > p.y);
      }
    }
  }

  /** A point inside a polygon lies in the latitude range of its exterior ring. */
  lemma InPolygonWithinLatitudes(p: Point, poly: Polygon)
    requires InPolygon(p, poly)
    ensures exists i :: 0 <= i < |poly[0]| && poly[0][i].y > p.y
    ensures exists j :: 0 <= j < |poly[0]| && poly[0][j].y <= p.y
  {
    InRingWithinLatitudes(p, poly[0]);
  }

  // ---------------------------------------------------------------------------
  // Worked examples: a square with a square hole, and two disjoint unit squares

  function Square(x0: real, y0: real, side: real): Ring {
    [Point(x0, y0), Point(x0 + side, y0), Point(x0 + side, y0 + side), Point(x0, y0 + side)]
  }

  /** The 10 x 10 square at the origin with a 2 x 2 hole centred on (5, 5). */
  function Holed(): Polygon {
    [Square(0.0, 0.0, 10.0), Square(4.0, 4.0, 2.0)]
  }

  /** The hole removes its centre; points between hole and boundary stay inside. */
  lemma HoledSquareContainment()
    ensures !InPolygon(Point(5.0, 5.0), Holed())
    ensures InPolygon(Point(1.0, 1.0), Holed())
    ensures InPolygon(Point(9.0, 9.0), Holed())
  {
    var outer, hole := Square(0.0, 0.0, 10.0), Square(4.0, 4.0, 2.0);
    assert Holed() == [outer, hole];
    assert Crossings(Point(5.0, 5.0), hole) == 1 by {
      assert !EdgeCrosses(Point(5.0, 5.0), hole, 0);
      assert !EdgeCrosses(Point(5.0, 5.0), hole, 1);
      assert EdgeCrosses(Point(5.0, 5.0), hole, 2);
      assert !EdgeCrosses(Point(5.0, 5.0), hole, 3);
    }
    assert Crossings(Point(1.0, 1.0), outer) == 1 by {
      assert !EdgeCrosses(Point(1.0, 1.0), outer, 0);
      assert !EdgeCrosses(Point(1.0, 1.0), outer, 1);
      assert EdgeCrosses(Point(1.0, 1.0), outer, 2);
      assert !EdgeCrosses(Point(1.0, 1.0), outer, 3);
    }
    assert Crossings(Point(9.0, 9.0), outer) == 1 by {
      assert !EdgeCrosses(Point(9.0, 9.0), outer, 0);
      assert !EdgeCrosses(Point(9.0, 9.0), outer, 1);
      assert EdgeCrosses(Point(9.0, 9.0), outer, 2);
      assert !EdgeCrosses(Point(9.0, 9.0), outer, 3);
    }
    assert InRing(Point(5.0, 5.0), Holed()[1]);
    OneSidedRingExcludes(Point(1.0, 1.0), hole, 4);
    OneSidedRingExcludes(Point(9.0, 9.0), hole, 4);
  }

  /** Two disjoint unit squares at (0, 0) and (5, 5). */
  function TwoIslands(): MultiPolygon {
    [[Square(0.0, 0.0, 1.0)], [Square(5.0, 5.0, 1.0)]]
  }

  /** Union semantics: each square contains its centre, the gap between them belongs to neither. */
  lemma TwoIslandsContainment()
    ensures InMultiPolygon(Point(0.5, 0.5), TwoIslands())
    ensures !InMultiPolygon(Point(3.0, 3.0), TwoIslands())
    ensures InMultiPolygon(Point(5.5, 5.5), TwoIslands())
  {
    var a, b := Square(0.0, 0.0, 1.0), Square(5.0, 5.0, 1.0);
    assert TwoIslands() == [[a], [b]];
    assert Crossings(Point(0.5, 0.5), a) == 1 by {
      assert !EdgeCrosses(Point(0.5, 0.5), a, 0);
      assert !EdgeCrosses(Point(0.5, 0.5), a, 1);
      assert EdgeCrosses(Point(0.5, 0.5), a, 2);
      assert !EdgeCrosses(Point(0.5, 0.5), a, 3);
    }
    assert InPolygon(Point(0.5, 0.5), TwoIslands()[0]);
    assert Crossings(Point(5.5, 5.5), b) == 1 by {
      assert !EdgeCrosses(Point(5.5, 5.5), b, 0);
      assert !EdgeCrosses(Point(5.5, 5.5), b, 1);
      assert EdgeCrosses(Point(5.5, 5.5), b, 2);
      assert !EdgeCrosses(Point(5.5, 5.5), b, 3);
    }
    assert InPolygon(Point(5.5, 5.5), TwoIslands()[1]);
    OneSidedRingExcludes(Point(3.0, 3.0), a, 4);
    OneSidedRingExcludes(Point(3.0, 3.0), b, 4);
    assert !InPolygon(Point(3.0, 3.0), TwoIslands()[0]);
    assert !InPolygon(Point(3.0, 3.0), TwoIslands()[1]);
  }
}
