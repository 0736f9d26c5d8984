/** Country features, the spatial-index items built from them, the rectangle-tree search
    contract and the country resolver `hitCountry`. */
module Features {
  import opened Wrappers
  import opened Geometry
  import opened BBox

  /** A GeoJSON geometry as the code dispatches on its `type`: "Polygon", "MultiPolygon",
      or any other type, which neither the builders nor the resolver handle. */
  datatype Geom =
    | PolygonGeom(rings: Polygon)
    | MultiPolygonGeom(polygons: MultiPolygon)
    | OtherGeom

  /** The feature properties the name chain reads: `ADMIN`, `NAME` and `name`.
      None is a missing key. */
  datatype Props = Props(admin: Option<string>, upperName: Option<string>, name: Option<string>)

  /** A GeoJSON feature; `properties` and `geometry` may both be null. */
  datatype Feature = Feature(properties: Option<Props>, geometry: Option<Geom>)

  /** The `feature` record an index item carries: the resolved name and the geometry. */
  datatype Country = Country(name: string, geometry: Option<Geom>)

  /** An index item: its box (None is the inverted infinite box of a geometry without
      vertices) and its country. */
  datatype Item = Item(box: Extremes, country: Country)

  /** JavaScript truthiness of an optional string: present and not empty. */
  predicate Truthy(s: Option<string>) {
    s.Some? && s.value != ""
  }

  /** The chain `ADMIN || NAME || name || 'Unknown'` on a property bag. */
  function NameOf(props: Props): (n: string)
    ensures n != ""
    ensures Truthy(props.admin) ==> n == props.admin.value
    ensures !Truthy(props.admin) && Truthy(props.upperName) ==> n == props.upperName.value
    ensures !Truthy(props.admin) && !Truthy(props.upperName) && Truthy(props.name) ==> n == props.name.value
    ensures n == "Unknown" || Some(n) in [props.admin, props.upperName, props.name]
  {
    if Truthy(props.admin) then props.admin.value
    else if Truthy(props.upperName) then props.upperName.value
    else if Truthy(props.name) then props.name.value
    else "Unknown"
  }

  /** The index builder's name: `f.properties || {}` first, so null properties give 'Unknown'. */
  function IndexName(props: Option<Props>): (n: string)
    ensures props.None? ==> n == "Unknown"
    ensures props.Some? ==> n == NameOf(props.value)
  {
    if props.None? then "Unknown" else NameOf(props.value)
  }

  /** The box the index builder gives a geometry: `computeBBox([coordinates])` for a
      Polygon, `computeBBox(coordinates)` for a MultiPolygon, and the zero box
      (0, 0, 0, 0) for an absent geometry or another type. */
  function ItemBox(g: Option<Geom>): Extremes {
    match g
    case Some(PolygonGeom(c)) => BBoxOf([c])
    case Some(MultiPolygonGeom(c)) => BBoxOf(c)
    case _ => Some(Box(0.0, 0.0, 0.0, 0.0))
  }

  /** The item built for one feature. */
  function ItemOf(f: Feature): Item {
    Item(ItemBox(f.geometry), Country(IndexName(f.properties), f.geometry))
  }

  /** The vertices a geometry's box is computed from. */
  function GeomVertices(g: Option<Geom>): seq<Point> {
    match g
    case Some(PolygonGeom(c)) => Vertices([c])
    case Some(MultiPolygonGeom(c)) => Vertices(c)
    case _ => []
  }

  /** The loop over `features.map(...)` with `tree.insert(item)`: one item per feature, in
      feature order; the tree holds exactly the returned items. */
  method BuildIndexItems(features: seq<Feature>) returns (items: seq<Item>)
    ensures |items| == |features|
    ensures forall i :: 0 <= i < |features| ==> items[i] == ItemOf(features[i])
  {
    items := [];
    var i := 0;
    while i < |features|
      invariant 0 <= i <= |features|
      invariant |items| == i
      invariant forall k :: 0 <= k < i ==> items[k] == ItemOf(features[k])
    {
      var f := features[i];
      var name := IndexName(f.properties);
      var bbox: Option<Extremes> := None;
      match f.geometry {
        case Some(PolygonGeom(c)) =>
          var b := ComputeBBox([c]);
          bbox := Some(b);
        case Some(MultiPolygonGeom(c)) =>
          var b := ComputeBBox(c);
          bbox := Some(b);
        case _ =>
      }
      var box := if bbox.Some? then bbox.value else Some(Box(0.0, 0.0, 0.0, 0.0));
      items := items + [Item(box, Country(name, f.geometry))];
      i := i + 1;
    }
  }

  // ---------------------------------------------------------------------------
  // The rectangle-tree search, by its contract only

  /** The closed box contains the point; the inverted infinite box contains nothing. */
  predicate BoxContains(box: Extremes, p: Point) {
    box.Some? && box.value.minX <= p.x <= box.value.maxX && box.value.minY <= p.y <= box.value.maxY
  }

  /** `tree.search` with the degenerate box (lon, lat, lon, lat): the result holds items of
      the tree whose box contains the point, and every such item, in no particular order. */
  ghost predicate IsSearchResult(tree: seq<Item>, p: Point, found: seq<Item>) {
    && (forall c :: c in found ==> c in tree && BoxContains(c.box, p))
    && (forall t :: t in tree && BoxContains(t.box, p) ==> t in found)
  }

  // ---------------------------------------------------------------------------
  // The resolver

  /** The geometry contains the point under the type dispatch of `hitCountry`; an absent
      geometry or another type never does. */
  predicate Contains(p: Point, g: Option<Geom>) {
    match g
    case Some(PolygonGeom(c)) => InPolygon(p, c)
    case Some(MultiPolygonGeom(c)) => InMultiPolygon(p, c)
    case _ => false
  }

  /** `hitCountry`: scans the search result in its order and returns the country of the
      first candidate whose geometry contains the point, or null when none does. With the
      search contract this is the resolver's contract: a hit is a country of the index that
      contains the point, and there is no hit exactly when no indexed country whose box
      contains the point contains it. */
  method HitCountry(p: Point, tree: seq<Item>, candidates: seq<Item>) returns (hit: Option<Country>)
    requires IsSearchResult(tree, p, candidates)
    ensures hit.None? <==> forall k :: 0 <= k < |candidates| ==> !Contains(p, candidates[k].country.geometry)
    ensures hit.Some? ==> exists k :: 0 <= k < |candidates|
                                   && hit.value == candidates[k].country
                                   && Contains(p, hit.value.geometry)
                                   && forall e :: 0 <= e < k ==> !Contains(p, candidates[e].country.geometry)
    ensures hit.Some? ==> exists t :: t in tree && t.country == hit.value && BoxContains(t.box, p)
    ensures hit.None? <==> forall t :: t in tree && BoxContains(t.box, p) ==> !Contains(p, t.country.geometry)
  {
    var k := 0;
    while k < |candidates|
      invariant 0 <= k <= |candidates|
      invariant forall e :: 0 <= e < k ==> !Contains(p, candidates[e].country.geometry)
    {
      var item := candidates[k];
      var geom := item.country.geometry;
      if geom.None? {
        k := k + 1;
        continue;
      }
      match geom.value {
        case PolygonGeom(c) =>
          var inside := PointInPolygon(p, c);
          if inside {
            assert candidates[k] in tree;
            return Some(item.country);
          }
        case MultiPolygonGeom(c) =>
          var inside := PointInMultiPolygon(p, c);
          if inside {
            assert candidates[k] in tree;
            return Some(item.country);
          }
        case OtherGeom =>
      }
      k := k + 1;
    }
    forall t | t in tree && BoxContains(t.box, p)
      ensures !Contains(p, t.country.geometry)
    {
      var e :| 0 <= e < |candidates| && candidates[e] == t;
    }
    return None;
  }

  // ---------------------------------------------------------------------------
  // Properties of the index items

  /** Every point of every ring lies in the concatenation of the rings. */
  lemma {:induction false} RingPointsHas(rings: seq<Ring>, r: nat, i: nat)
    requires r < |rings| && i < |rings[r]|
    ensures rings[r][i] in RingPoints(rings)
  {
    var init := rings[..|rings| - 1];
    if r < |rings| - 1 {
      assert init[r] == rings[r];
      RingPointsHas(init, r, i);
    }
  }

  /** Every vertex of every polygon is among the scanned vertices. */
  lemma {:induction false} VerticesHas(coords: seq<Polygon>, m: nat, r: nat, i: nat)
    requires m < |coords| && r < |coords[m]| && i < |coords[m][r]|
    ensures coords[m][r][i] in Vertices(coords)
  {
    var init := coords[..|coords| - 1];
    if m < |coords| - 1 {
      assert init[m] == coords[m];
      VerticesHas(init, m, r, i);
    } else {
      RingPointsHas(coords[m], r, i);
    }
  }

  /** The item's box is the tightest box around the geometry's vertices; a geometry
      without vertices gets the inverted infinite box, which contains no point. */
  lemma ItemBoxIsTight(f: Feature)
    requires f.geometry.Some? && !f.geometry.value.OtherGeom?
    ensures ItemOf(f).box.None? <==> |GeomVertices(f.geometry)| == 0
    ensures ItemOf(f).box.Some? ==> Tight(ItemOf(f).box.value, GeomVertices(f.geometry))
  {
    ScanIsTight(GeomVertices(f.geometry));
  }

  /** A vertex of an exterior ring lies in the geometry's box. */
  lemma ExteriorVertexInBox(g: Option<Geom>, poly: Polygon, i: nat)
    requires g.Some?
    requires (g.value.PolygonGeom? && poly == g.value.rings)
          || (g.value.MultiPolygonGeom? && poly in g.value.polygons)
    requires |poly| > 0 && i < |poly[0]|
    ensures ItemBox(g).Some?
    ensures ItemBox(g).value.minY <= poly[0][i].y <= ItemBox(g).value.maxY
  {
    var coords := if g.value.PolygonGeom? then [poly] else g.value.polygons;
    var m :| 0 <= m < |coords| && coords[m] == poly;
    VerticesHas(coords, m, 0, i);
    ScanIsTight(Vertices(coords));
  }

  /** A country whose geometry contains the point has a box whose latitude range spans the
      point, so the search returns it whenever the point is also in its longitude range. */
  lemma ContainedWithinBoxLatitudes(f: Feature, p: Point)
    requires Contains(p, f.geometry)
    ensures ItemOf(f).box.Some?
    ensures ItemOf(f).box.value.minY <= p.y <= ItemOf(f).box.value.maxY
  {
    var g := f.geometry;
    var poly: Polygon;
    if g.value.PolygonGeom? {
      poly := g.value.rings;
    } else {
      var m :| 0 <= m < |g.value.polygons| && InPolygon(p, g.value.polygons[m]);
      poly := g.value.polygons[m];
    }
    InPolygonWithinLatitudes(p, poly);
    var i :| 0 <= i < |poly[0]| && poly[0][i].y > p.y;
    var j :| 0 <= j < |poly[0]| && poly[0][j].y <= p.y;
    ExteriorVertexInBox(g, poly, i);
    ExteriorVertexInBox(g, poly, j);
  }

  /** The zero-box quirk: a feature without geometry is indexed with the box (0, 0, 0, 0),
      so every search at longitude 0, latitude 0 returns it, and the resolver never picks it. */
  lemma MissingGeometryIndexedAtOrigin(features: seq<Feature>, tree: seq<Item>, k: nat, found: seq<Item>)
    requires |tree| == |features| && forall i :: 0 <= i < |features| ==> tree[i] == ItemOf(features[i])
    requires k < |features| && features[k].geometry.None?
    requires IsSearchResult(tree, Point(0.0, 0.0), found)
    ensures tree[k] in found
    ensures !Contains(Point(0.0, 0.0), tree[k].country.geometry)
  {
    assert tree[k] == ItemOf(features[k]);
  }
}
