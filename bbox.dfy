/** `computeBBox`: the min/max scan over every vertex of every ring of every polygon. */
module BBox {
  import opened Wrappers
  import opened Geometry

  /** An axis-aligned box [minX, maxX] x [minY, maxY] in degrees. */
  datatype Box = Box(minX: real, minY: real, maxX: real, maxY: real)

  /** The running extremes of the scan. They start at minX = minY = +Infinity and
      maxX = maxY = -Infinity; that state is None here, and stays the result when there is
      no vertex at all. */
  type Extremes = Option<Box>

  /** One step of `processRing`: each of the four comparisons updates its own extreme. */
  function Include(acc: Extremes, v: Point): Box {
    match acc
    case None => Box(v.x, v.y, v.x, v.y)
    case Some(b) =>
      Box(if v.x < b.minX then v.x else b.minX,
          if v.y < b.minY then v.y else b.minY,
          if v.x > b.maxX then v.x else b.maxX,
          if v.y > b.maxY then v.y else b.maxY)
  }

  /** The scan of a vertex sequence, in order, from the given extremes. */
  function Scan(acc: Extremes, pts: seq<Point>): Extremes {
    if |pts| == 0 then acc else Some(Include(Scan(acc, pts[..|pts| - 1]), pts[|pts| - 1]))
  }

  /** The vertices of a sequence of rings, ring after ring. */
  function RingPoints(rings: seq<Ring>): seq<Point> {
    if |rings| == 0 then [] else RingPoints(rings[..|rings| - 1]) + rings[|rings| - 1]
  }

  /** The vertices of a sequence of polygons, in the order the nested loops visit them. */
  function Vertices(coords: seq<Polygon>): seq<Point> {
    if |coords| == 0 then [] else Vertices(coords[..|coords| - 1]) + RingPoints(coords[|coords| - 1])
  }

  /** What `computeBBox(coords)` returns. */
  function BBoxOf(coords: seq<Polygon>): Extremes {
    Scan(None, Vertices(coords))
  }

  /** Every point lies in the box. */
  ghost predicate Encloses(b: Box, pts: seq<Point>) {
    forall i :: 0 <= i < |pts| ==> b.minX <= pts[i].x <= b.maxX && b.minY <= pts[i].y <= b.maxY
  }

  /** Each of the four bounds is the coordinate of some point. */
  ghost predicate Attained(b: Box, pts: seq<Point>) {
    && (exists i :: 0 <= i < |pts| && pts[i].x == b.minX)
    && (exists i :: 0 <= i < |pts| && pts[i].y == b.minY)
    && (exists i :: 0 <= i < |pts| && pts[i].x == b.maxX)
    && (exists i :: 0 <= i < |pts| && pts[i].y == b.maxY)
  }

  /** The box is the tightest one around the points. */
  ghost predicate Tight(b: Box, pts: seq<Point>) {
    Encloses(b, pts) && Attained(b, pts)
  }

  /** Scanning a concatenation is scanning its two parts one after the other. */
  lemma {:induction false} ScanAppend(acc: Extremes, xs: seq<Point>, ys: seq<Point>)
    ensures Scan(acc, xs + ys) == Scan(Scan(acc, xs), ys)
  {
    if |ys| > 0 {
      var zs := xs + ys;
      assert zs[..|zs| - 1] == xs + ys[..|ys| - 1];
      assert zs[|zs| - 1] == ys[|ys| - 1];
      ScanAppend(acc, xs, ys[..|ys| - 1]);
    } else {
      assert xs + ys == xs;
    }
  }

  /** The scan from the infinite sentinels yields nothing exactly when there are no points,
      and otherwise the tightest enclosing box. */
  lemma {:induction false} ScanIsTight(pts: seq<Point>)
    ensures Scan(None, pts).None? <==> |pts| == 0
    ensures Scan(None, pts).Some? ==> Tight(Scan(None, pts).value, pts)
  {
    if |pts| > 0 {
      var init, last := pts[..|pts| - 1], pts[|pts| - 1];
      ScanIsTight(init);
      var b := Scan(None, pts).value;
      assert forall i :: 0 <= i < |init| ==> init[i] == pts[i];
      if |init| == 0 {
        assert b == Box(last.x, last.y, last.x, last.y);
      } else {
        var a := Scan(None, init).value;
        assert b == Include(Some(a), last);
        assert Encloses(b, pts);
        var i1 :| 0 <= i1 < |init| && init[i1].x == a.minX;
        var i2 :| 0 <= i2 < |init| && init[i2].y == a.minY;
        var i3 :| 0 <= i3 < |init| && init[i3].x == a.maxX;
        var i4 :| 0 <= i4 < |init| && init[i4].y == a.maxY;
        var n := |pts| - 1;
        assert pts[if last.x < a.minX then n else i1].x == b.minX;
        assert pts[if last.y < a.minY then n else i2].y == b.minY;
        assert pts[if last.x > a.maxX then n else i3].x == b.maxX;
        assert pts[if last.y > a.maxY then n else i4].y == b.maxY;
      }
    }
  }

  /** `processRing`: the scan of one ring from the current extremes. */
  method ProcessRing(acc: Extremes, ring: Ring) returns (r: Extremes)
    ensures r == Scan(acc, ring)
  {
    r := acc;
    var k := 0;
    while k < |ring|
      invariant 0 <= k <= |ring|
      invariant r == Scan(acc, ring[..k])
    {
      assert ring[..k + 1][..k] == ring[..k];
      r := Some(Include(r, ring[k]));
      k := k + 1;
    }
    assert ring[..|ring|] == ring;
  }

  /** Scanning one more ring of a polygon continues the scan of the vertices before it. */
  lemma RingStep(before: seq<Point>, poly: Polygon, j: nat)
    requires j < |poly|
    ensures Scan(None, before + RingPoints(poly[..j + 1])) == Scan(Scan(None, before + RingPoints(poly[..j])), poly[j])
  {
    assert poly[..j + 1][..j] == poly[..j];
    assert RingPoints(poly[..j + 1]) == RingPoints(poly[..j]) + poly[j];
    ScanAppend(None, before + RingPoints(poly[..j]), poly[j]);
    assert before + RingPoints(poly[..j]) + poly[j] == before + RingPoints(poly[..j + 1]);
  }

  /** `computeBBox`: None (the infinite sentinels) when there is no vertex; otherwise every
      vertex lies in the box and every bound is attained by a vertex. */
  method ComputeBBox(coords: seq<Polygon>) returns (bbox: Extremes)
    ensures bbox == BBoxOf(coords)
    ensures bbox.None? <==> |Vertices(coords)| == 0
    ensures bbox.Some? ==> Tight(bbox.value, Vertices(coords))
  {
    bbox := None;
    var i := 0;
    while i < |coords|
      invariant 0 <= i <= |coords|
      invariant bbox == Scan(None, Vertices(coords[..i]))
    {
      var poly := coords[i];
      ghost var before := Vertices(coords[..i]);
      var j := 0;
      assert before + RingPoints(poly[..0]) == before;
      while j < |poly|
        invariant 0 <= j <= |poly|
        invariant bbox == Scan(None, before + RingPoints(poly[..j]))
      {
        RingStep(before, poly, j);
        bbox := ProcessRing(bbox, poly[j]);
        j := j + 1;
      }
      assert poly[..|poly|] == poly;
      assert coords[..i + 1][..i] == coords[..i];
      i := i + 1;
    }
    assert coords[..|coords|] == coords;
    ScanIsTight(Vertices(coords));
  }
}
