/** The merged border buffer of the main app: every boundary edge of every country as a
    pair of projected vertices in one flat `segments` array, a parallel `colors` array, and
    the per-country `{start, count}` table into it (`countryLines`), keyed by name. */
module Borders {
  import opened Wrappers
  import opened Seqs
  import opened Geometry
  import opened Features

  /** A projected vertex. */
  datatype Vec3 = Vec3(x: real, y: real, z: real)

  /** `lonLatToVec3` at the border radius R * 1.002 (floating-point trigonometry, so it is
      a parameter of the model). */
  type Projection = Point -> Vec3

  /** The three components of the default border colour BORDER_LINE_COLOR = 0xffffff. */
  const DefaultComponent: real := 1.0

  /** A country's slice of the buffer, in vertices (three floats each). */
  datatype SegmentRange = SegmentRange(start: int, count: int)

  /** What the builder leaves behind: the buffers, the range table and the final offset. */
  datatype Layout = Layout(segments: seq<real>, colors: seq<real>, lines: map<string, SegmentRange>, vertexOffset: int)

  function Flat(v: Vec3): seq<real> {
    [v.x, v.y, v.z]
  }

  /** `count` colour floats of the default colour. */
  function Ones(count: nat): (c: seq<real>)
    ensures |c| == count && forall i :: 0 <= i < count ==> c[i] == DefaultComponent
  {
    seq(count, _ => DefaultComponent)
  }

  lemma OnesAppend(a: nat, b: nat)
    ensures Ones(a) + Ones(b) == Ones(a + b)
  {
    assert forall i :: 0 <= i < a + b ==> (Ones(a) + Ones(b))[i] == DefaultComponent;
  }

  // ---------------------------------------------------------------------------
  // What one ring and one feature contribute

  /** The floats `addRing` pushes for edges 0 .. k-1 of a ring: for edge i the projections
      of vertices i and i + 1. */
  function EdgeFloats(proj: Projection, ring: Ring, k: nat): seq<real>
    requires k < |ring| || k == 0
  {
    if k == 0 then [] else EdgeFloats(proj, ring, k - 1) + Flat(proj(ring[k - 1])) + Flat(proj(ring[k]))
  }

  /** Everything `addRing(ring)` pushes to `segments`: the ring's |ring| - 1 open edges. */
  function RingSegments(proj: Projection, ring: Ring): seq<real> {
    if |ring| == 0 then [] else EdgeFloats(proj, ring, |ring| - 1)
  }

  /** How far the builder advances `vertexOffset` after a ring: (ring.length - 1) * 2,
      which is -2 for an empty ring. */
  function RingOffset(ring: Ring): int {
    (|ring| - 1) * 2
  }

  /** What each ring of a sequence contributes, ring by ring. */
  function PerRing(proj: Projection, rings: seq<Ring>): (r: seq<seq<real>>)
    ensures |r| == |rings|
  {
    seq(|rings|, i requires 0 <= i < |rings| => RingSegments(proj, rings[i]))
  }

  /** Everything the ring loop pushes for a sequence of rings, first ring first. */
  function RingsSegments(proj: Projection, rings: seq<Ring>): seq<real> {
    Concat(PerRing(proj, rings))
  }

  function RingsOffset(rings: seq<Ring>): int {
    if |rings| == 0 then 0 else RingsOffset(rings[..|rings| - 1]) + RingOffset(rings[|rings| - 1])
  }

  /** The number of empty rings. */
  function EmptyRings(rings: seq<Ring>): nat {
    if |rings| == 0 then 0 else EmptyRings(rings[..|rings| - 1]) + (if |rings[|rings| - 1]| == 0 then 1 else 0)
  }

  /** The rings of a geometry in the order the builder visits them; another type has none. */
  function GeomRings(g: Geom): seq<Ring> {
    match g
    case PolygonGeom(c) => c
    case MultiPolygonGeom(c) => Concat(c)
    case OtherGeom => []
  }

  /** The rings the builder visits for a feature: none when it has no geometry. */
  function FeatureRings(f: Feature): seq<Ring> {
    if f.geometry.None? then [] else GeomRings(f.geometry.value)
  }

  /** A feature the builder records in the range table: one with a geometry. */
  predicate Recorded(f: Feature) {
    f.geometry.Some?
  }

  /** The builder reads `f.properties.ADMIN` on a feature with geometry; null properties
      make that throw, which aborts the whole build. */
  predicate Throws(f: Feature) {
    f.geometry.Some? && f.properties.None?
  }

  // ---------------------------------------------------------------------------
  // The whole build, feature by feature

  function SegmentsOf(proj: Projection, fs: seq<Feature>): seq<real> {
    if |fs| == 0 then [] else SegmentsOf(proj, fs[..|fs| - 1]) + RingsSegments(proj, FeatureRings(fs[|fs| - 1]))
  }

  /** The value of `vertexOffset` after the given features. */
  function OffsetOf(fs: seq<Feature>): int {
    if |fs| == 0 then 0 else OffsetOf(fs[..|fs| - 1]) + RingsOffset(FeatureRings(fs[|fs| - 1]))
  }

  function EmptyRingsOf(fs: seq<Feature>): nat {
    if |fs| == 0 then 0 else EmptyRingsOf(fs[..|fs| - 1]) + EmptyRings(FeatureRings(fs[|fs| - 1]))
  }

  /** The range table after the given features: each recorded feature writes
      `countryLines[name] = {start, count}` over any earlier entry of that name. */
  function LinesOf(fs: seq<Feature>): map<string, SegmentRange>
    requires forall k :: 0 <= k < |fs| ==> !Throws(fs[k])
  {
    if |fs| == 0 then map[]
    else
      var init, f := fs[..|fs| - 1], fs[|fs| - 1];
      var lines := LinesOf(init);
      assert !Throws(fs[|fs| - 1]);
      if !Recorded(f) then lines
      else lines[NameOf(f.properties.value) := SegmentRange(OffsetOf(init), RingsOffset(FeatureRings(f)))]
  }

  function LayoutOf(proj: Projection, fs: seq<Feature>): Layout
    requires forall k :: 0 <= k < |fs| ==> !Throws(fs[k])
  {
    var segments := SegmentsOf(proj, fs);
    Layout(segments, Ones(|segments|), LinesOf(fs), OffsetOf(fs))
  }

  // ---------------------------------------------------------------------------
  // The builder

  /** `addRing`: pushes both endpoints of each edge (i, i + 1), i < ring.length - 1, and the
      default colour twice per edge. */
  method AddRing(proj: Projection, segments: seq<real>, colors: seq<real>, ring: Ring)
    returns (segments': seq<real>, colors': seq<real>)
    ensures segments' == segments + RingSegments(proj, ring)
    ensures colors' == colors + Ones(|RingSegments(proj, ring)|)
  {
    segments', colors' := segments, colors;
    var i := 0;
    while i < |ring| - 1
      invariant 0 <= i <= if |ring| == 0 then 0 else |ring| - 1
      invariant segments' == segments + EdgeFloats(proj, ring, i)
      invariant colors' == colors + Ones(|EdgeFloats(proj, ring, i)|)
    {
      var v1, v2 := proj(ring[i]), proj(ring[i + 1]);
      ghost var done := EdgeFloats(proj, ring, i);
      assert EdgeFloats(proj, ring, i + 1) == done + Flat(v1) + Flat(v2);
      AppendAssoc(segments, done, Flat(v1));
      AppendAssoc(segments, done + Flat(v1), Flat(v2));
      OnesAppend(|done|, 3);
      OnesAppend(|done| + 3, 3);
      AppendAssoc(colors, Ones(|done|), Ones(3));
      AppendAssoc(colors, Ones(|done| + 3), Ones(3));
      segments' := segments' + [v1.x, v1.y, v1.z];
      segments' := segments' + [v2.x, v2.y, v2.z];
      assert [DefaultComponent, DefaultComponent, DefaultComponent] == Ones(3);
      colors' := colors' + [DefaultComponent, DefaultComponent, DefaultComponent];
      colors' := colors' + [DefaultComponent, DefaultComponent, DefaultComponent];
      i := i + 1;
    }
  }

  /** The ring loop of one polygon: `addRing(ring); vertexOffset += (ring.length - 1) * 2`
      for each ring in order. */
  method AddRings(proj: Projection, segments: seq<real>, colors: seq<real>, vertexOffset: int, rings: seq<Ring>)
    returns (segments': seq<real>, colors': seq<real>, vertexOffset': int)
    ensures segments' == segments + RingsSegments(proj, rings)
    ensures colors' == colors + Ones(|RingsSegments(proj, rings)|)
    ensures vertexOffset' == vertexOffset + RingsOffset(rings)
  {
    segments', colors', vertexOffset' := segments, colors, vertexOffset;
    var r := 0;
    while r < |rings|
      invariant 0 <= r <= |rings|
      invariant segments' == segments + RingsSegments(proj, rings[..r])
      invariant colors' == colors + Ones(|RingsSegments(proj, rings[..r])|)
      invariant vertexOffset' == vertexOffset + RingsOffset(rings[..r])
    {
      RingStep(proj, rings, r);
      OnesAppend(|RingsSegments(proj, rings[..r])|, |RingSegments(proj, rings[r])|);
      AppendAssoc(segments, RingsSegments(proj, rings[..r]), RingSegments(proj, rings[r]));
      AppendAssoc(colors, Ones(|RingsSegments(proj, rings[..r])|), Ones(|RingSegments(proj, rings[r])|));
      segments', colors' := AddRing(proj, segments', colors', rings[r]);
      vertexOffset' := vertexOffset' + (|rings[r]| - 1) * 2;
      r := r + 1;
    }
    assert rings[..|rings|] == rings;
  }

  /** The polygon loop of a MultiPolygon: the ring loop of each polygon in turn. */
  method AddPolygons(proj: Projection, segments: seq<real>, colors: seq<real>, vertexOffset: int, polys: MultiPolygon)
    returns (segments': seq<real>, colors': seq<real>, vertexOffset': int)
    requires colors == Ones(|segments|)
    ensures segments' == segments + RingsSegments(proj, Concat(polys))
    ensures colors' == Ones(|segments'|)
    ensures vertexOffset' == vertexOffset + RingsOffset(Concat(polys))
  {
    segments', colors', vertexOffset' := segments, colors, vertexOffset;
    var m := 0;
    while m < |polys|
      invariant 0 <= m <= |polys|
      invariant segments' == segments + RingsSegments(proj, Concat(polys[..m]))
      invariant colors' == Ones(|segments'|)
      invariant vertexOffset' == vertexOffset + RingsOffset(Concat(polys[..m]))
    {
      PolygonStep(proj, polys, m);
      OnesAppend(|segments'|, |RingsSegments(proj, polys[m])|);
      AppendAssoc(segments, RingsSegments(proj, Concat(polys[..m])), RingsSegments(proj, polys[m]));
      segments', colors', vertexOffset' := AddRings(proj, segments', colors', vertexOffset', polys[m]);
      m := m + 1;
    }
    assert polys[..|polys|] == polys;
  }

  /** The first r + 1 rings push what the first r push, then ring r's edges. */
  lemma RingStep(proj: Projection, rings: seq<Ring>, r: nat)
    requires r < |rings|
    ensures RingsSegments(proj, rings[..r + 1]) == RingsSegments(proj, rings[..r]) + RingSegments(proj, rings[r])
    ensures RingsOffset(rings[..r + 1]) == RingsOffset(rings[..r]) + (|rings[r]| - 1) * 2
  {
    assert rings[..r + 1] == rings[..r] + [rings[r]];
    SegmentsSnoc(proj, rings[..r], rings[r]);
  }

  /** The rings of the first m + 1 polygons push what the first m push, then polygon m's. */
  lemma PolygonStep(proj: Projection, polys: MultiPolygon, m: nat)
    requires m < |polys|
    ensures RingsSegments(proj, Concat(polys[..m + 1])) == RingsSegments(proj, Concat(polys[..m])) + RingsSegments(proj, polys[m])
    ensures RingsOffset(Concat(polys[..m + 1])) == RingsOffset(Concat(polys[..m])) + RingsOffset(polys[m])
  {
    assert polys[..m + 1][..m] == polys[..m];
    RingsAppend(proj, Concat(polys[..m]), polys[m]);
  }

  /** One feature's geometry: a Polygon's ring loop, a MultiPolygon's ring loop for each
      polygon in turn, nothing for another type. */
  method AddGeometry(proj: Projection, segments: seq<real>, colors: seq<real>, vertexOffset: int, g: Geom)
    returns (segments': seq<real>, colors': seq<real>, vertexOffset': int)
    requires colors == Ones(|segments|)
    ensures segments' == segments + RingsSegments(proj, GeomRings(g))
    ensures colors' == Ones(|segments'|)
    ensures vertexOffset' == vertexOffset + RingsOffset(GeomRings(g))
  {
    segments', colors', vertexOffset' := segments, colors, vertexOffset;
    match g {
      case PolygonGeom(coords) =>
        OnesAppend(|segments|, |RingsSegments(proj, coords)|);
        segments', colors', vertexOffset' := AddRings(proj, segments, colors, vertexOffset, coords);
      case MultiPolygonGeom(polys) =>
        segments', colors', vertexOffset' := AddPolygons(proj, segments, colors, vertexOffset, polys);
      case OtherGeom =>
        assert GeomRings(g) == [];
    }
  }

  /** The builder loop of `fetchBorders` (merged buffer and range table): features without
      geometry are skipped, a feature with geometry but null properties aborts the build,
      every other feature appends its rings and records its range under its name. */
  method BuildBorders(proj: Projection, features: seq<Feature>) returns (result: Option<Layout>)
    ensures result.None? <==> exists k :: 0 <= k < |features| && Throws(features[k])
    ensures result.Some? ==> result.value == LayoutOf(proj, features)
  {
    var countryLines: map<string, SegmentRange> := map[];
    var segments: seq<real> := [];
    var colors: seq<real> := [];
    var vertexOffset: int := 0;
    var i := 0;
    while i < |features|
      invariant 0 <= i <= |features|
      invariant forall k :: 0 <= k < i ==> !Throws(features[k])
      invariant Layout(segments, colors, countryLines, vertexOffset) == LayoutOf(proj, features[..i])
    {
      var f := features[i];
      if f.properties.None? && f.geometry.Some? {
        return None;
      }
      LayoutStep(proj, features, i);
      segments, colors, countryLines, vertexOffset := AddFeature(proj, segments, colors, countryLines, vertexOffset, f);
      i := i + 1;
    }
    assert features[..|features|] == features;
    return Some(Layout(segments, colors, countryLines, vertexOffset));
  }

  /** What the builder loop does with one feature, on the layout built so far. */
  function Added(proj: Projection, l: Layout, f: Feature): Layout
    requires !Throws(f)
  {
    if !Recorded(f) then l
    else
      var rings := FeatureRings(f);
      var segments := l.segments + RingsSegments(proj, rings);
      Layout(segments, Ones(|segments|),
             l.lines[NameOf(f.properties.value) := SegmentRange(l.vertexOffset, RingsOffset(rings))],
             l.vertexOffset + RingsOffset(rings))
  }

  /** The body of the builder loop for a feature that does not throw. */
  method AddFeature(proj: Projection, segments: seq<real>, colors: seq<real>,
                    countryLines: map<string, SegmentRange>, vertexOffset: int, f: Feature)
    returns (segments': seq<real>, colors': seq<real>, countryLines': map<string, SegmentRange>, vertexOffset': int)
    requires !Throws(f) && colors == Ones(|segments|)
    ensures Layout(segments', colors', countryLines', vertexOffset')
         == Added(proj, Layout(segments, colors, countryLines, vertexOffset), f)
  {
    if f.geometry.None? {
      return segments, colors, countryLines, vertexOffset;
    }
    var name := NameOf(f.properties.value);
    var start := vertexOffset;
    segments', colors', vertexOffset' := AddGeometry(proj, segments, colors, vertexOffset, f.geometry.value);
    var count := vertexOffset' - start;
    countryLines' := countryLines[name := SegmentRange(start, count)];
  }

  /** The layout after one more feature is that feature added to the layout before it. */
  lemma LayoutStep(proj: Projection, features: seq<Feature>, i: nat)
    requires i < |features| && forall k :: 0 <= k <= i ==> !Throws(features[k])
    ensures LayoutOf(proj, features[..i + 1]) == Added(proj, LayoutOf(proj, features[..i]), features[i])
  {
    var upto := features[..i + 1];
    assert upto[..i] == features[..i] && upto[i] == features[i];
    if features[i].geometry.None? {
      assert FeatureRings(features[i]) == [];
      assert PerRing(proj, []) == [];
      assert SegmentsOf(proj, upto) == SegmentsOf(proj, features[..i]);
    }
  }

  // ---------------------------------------------------------------------------
  // Properties of the layout

  /** The per-ring quantities add up over a concatenation of ring sequences. */
  lemma RingsAppend(proj: Projection, xs: seq<Ring>, ys: seq<Ring>)
    ensures RingsSegments(proj, xs + ys) == RingsSegments(proj, xs) + RingsSegments(proj, ys)
    ensures RingsOffset(xs + ys) == RingsOffset(xs) + RingsOffset(ys)
    ensures EmptyRings(xs + ys) == EmptyRings(xs) + EmptyRings(ys)
  {
    SegmentsAppend(proj, xs, ys);
    OffsetAppend(xs, ys);
    EmptyAppend(xs, ys);
  }

  lemma SegmentsAppend(proj: Projection, xs: seq<Ring>, ys: seq<Ring>)
    ensures RingsSegments(proj, xs + ys) == RingsSegments(proj, xs) + RingsSegments(proj, ys)
  {
    assert PerRing(proj, xs + ys) == PerRing(proj, xs) + PerRing(proj, ys);
    ConcatAppend(PerRing(proj, xs), PerRing(proj, ys));
  }

  /** One more ring appends what that ring contributes. */
  lemma SegmentsSnoc(proj: Projection, rings: seq<Ring>, ring: Ring)
    ensures RingsSegments(proj, rings + [ring]) == RingsSegments(proj, rings) + RingSegments(proj, ring)
  {
    SegmentsAppend(proj, rings, [ring]);
    var one := PerRing(proj, [ring]);
    assert one[..0] == [] && one[0] == RingSegments(proj, ring);
    assert Concat(one) == Concat(one[..0]) + one[0];
  }

  lemma {:induction false} OffsetAppend(xs: seq<Ring>, ys: seq<Ring>)
    ensures RingsOffset(xs + ys) == RingsOffset(xs) + RingsOffset(ys)
  {
    if |ys| == 0 {
      assert xs + ys == xs;
    } else {
      var zs, init := xs + ys, ys[..|ys| - 1];
      assert zs[..|zs| - 1] == xs + init;
      assert zs[|zs| - 1] == ys[|ys| - 1];
      OffsetAppend(xs, init);
    }
  }

  lemma {:induction false} EmptyAppend(xs: seq<Ring>, ys: seq<Ring>)
    ensures EmptyRings(xs + ys) == EmptyRings(xs) + EmptyRings(ys)
  {
    if |ys| == 0 {
      assert xs + ys == xs;
    } else {
      var zs, init := xs + ys, ys[..|ys| - 1];
      assert zs[..|zs| - 1] == xs + init;
      assert zs[|zs| - 1] == ys[|ys| - 1];
      EmptyAppend(xs, init);
    }
  }

  // ---------------------------------------------------------------------------
  // Sizes: three floats per vertex, two vertices per edge

  lemma {:induction false} EdgeFloatsLength(proj: Projection, ring: Ring, k: nat)
    requires k < |ring| || k == 0
    ensures |EdgeFloats(proj, ring, k)| == 6 * k
  {
    if k > 0 {
      EdgeFloatsLength(proj, ring, k - 1);
    }
  }

  /** A ring of L >= 1 points pushes 6 (L - 1) floats, two vertices per open edge; this is
      three floats per unit of its offset, except that an empty ring pushes nothing while
      its offset is -2. */
  lemma RingLength(proj: Projection, ring: Ring)
    ensures |ring| >= 1 ==> |RingSegments(proj, ring)| == 6 * (|ring| - 1)
    ensures |RingSegments(proj, ring)| == 3 * RingOffset(ring) + (if |ring| == 0 then 6 else 0)
  {
    if |ring| > 0 {
      EdgeFloatsLength(proj, ring, |ring| - 1);
    }
  }

  lemma {:induction false} RingsLength(proj: Projection, rings: seq<Ring>)
    ensures |RingsSegments(proj, rings)| == 3 * RingsOffset(rings) + 6 * EmptyRings(rings)
  {
    if |rings| > 0 {
      var init, last := rings[..|rings| - 1], rings[|rings| - 1];
      assert rings == init + [last];
      RingsLength(proj, init);
      RingLength(proj, last);
      SegmentsSnoc(proj, init, last);
    } else {
      assert PerRing(proj, rings) == [];
    }
  }

  /** The length of the whole buffer: three floats per unit of `vertexOffset`, plus six for
      every empty ring (whose offset step of -2 pushed nothing). */
  lemma {:induction false} SegmentsLength(proj: Projection, fs: seq<Feature>)
    ensures |SegmentsOf(proj, fs)| == 3 * OffsetOf(fs) + 6 * EmptyRingsOf(fs)
  {
    if |fs| > 0 {
      SegmentsLength(proj, fs[..|fs| - 1]);
      RingsLength(proj, FeatureRings(fs[|fs| - 1]));
    }
  }

  /** Without empty rings `segments.length == 3 * vertexOffset`, and `colors` is as long. */
  lemma LayoutLength(proj: Projection, fs: seq<Feature>)
    requires forall k :: 0 <= k < |fs| ==> !Throws(fs[k])
    requires EmptyRingsOf(fs) == 0
    ensures |LayoutOf(proj, fs).segments| == 3 * LayoutOf(proj, fs).vertexOffset
    ensures |LayoutOf(proj, fs).colors| == |LayoutOf(proj, fs).segments|
  {
    SegmentsLength(proj, fs);
  }

  // ---------------------------------------------------------------------------
  // The range table

  /** The feature writes `countryLines[name]`. */
  predicate Writes(f: Feature, name: string) {
    Recorded(f) && f.properties.Some? && NameOf(f.properties.value) == name
  }

  /** The entry feature k writes: it starts where the features before it ended, and counts
      the offset its own rings add. */
  function RangeOf(fs: seq<Feature>, k: nat): SegmentRange
    requires k < |fs|
  {
    SegmentRange(OffsetOf(fs[..k]), RingsOffset(FeatureRings(fs[k])))
  }

  /** Feature k is the last to write `name`. */
  predicate LastWriter(fs: seq<Feature>, name: string, k: int) {
    0 <= k < |fs| && Writes(fs[k], name) && forall j :: k < j < |fs| ==> !Writes(fs[j], name)
  }

  /** The last feature either writes the name, or leaves its entry as it was. */
  lemma LinesSnoc(fs: seq<Feature>, name: string)
    requires |fs| > 0
    requires forall k :: 0 <= k < |fs| ==> !Throws(fs[k])
    ensures Writes(fs[|fs| - 1], name) ==> name in LinesOf(fs) && LinesOf(fs)[name] == RangeOf(fs, |fs| - 1)
    ensures !Writes(fs[|fs| - 1], name) ==>
              && (name in LinesOf(fs) <==> name in LinesOf(fs[..|fs| - 1]))
              && (name in LinesOf(fs) ==> LinesOf(fs)[name] == LinesOf(fs[..|fs| - 1])[name])
  {
    assert !Throws(fs[|fs| - 1]);
  }

  /** A feature's range does not depend on the features after it. */
  lemma RangePrefix(fs: seq<Feature>, j: nat, k: nat)
    requires k < j <= |fs|
    ensures RangeOf(fs[..j], k) == RangeOf(fs, k)
  {
    assert fs[..j][..k] == fs[..k];
  }

  /** A name is in the table exactly when some feature with geometry resolves to it, and
      then some feature is the last to do so. */
  lemma {:induction false} LinesHas(fs: seq<Feature>, name: string)
    requires forall k :: 0 <= k < |fs| ==> !Throws(fs[k])
    ensures name in LinesOf(fs) <==> exists k :: 0 <= k < |fs| && Writes(fs[k], name)
    ensures name in LinesOf(fs) ==> exists k :: LastWriter(fs, name, k)
  {
    if |fs| > 0 {
      var n := |fs| - 1;
      var init := fs[..n];
      LinesHas(init, name);
      LinesSnoc(fs, name);
      if Writes(fs[n], name) {
        assert LastWriter(fs, name, n);
      } else {
        if name in LinesOf(fs) {
          var k :| LastWriter(init, name, k);
          assert LastWriter(fs, name, k);
        }
        if exists k :: 0 <= k < |fs| && Writes(fs[k], name) {
          var k :| 0 <= k < |fs| && Writes(fs[k], name);
          assert init[k] == fs[k];
        }
      }
    }
  }

  /** The entry of a name is the range of the last feature that resolves to it: a later
      duplicate overwrites an earlier one. */
  lemma {:induction false} LinesEntry(fs: seq<Feature>, name: string, k: int)
    requires forall k :: 0 <= k < |fs| ==> !Throws(fs[k])
    requires LastWriter(fs, name, k)
    ensures name in LinesOf(fs) && LinesOf(fs)[name] == RangeOf(fs, k)
  {
    var n := |fs| - 1;
    LinesSnoc(fs, name);
    if k < n {
      var init := fs[..n];
      assert !Writes(fs[n], name);
      assert LastWriter(init, name, k);
      LinesEntry(init, name, k);
      RangePrefix(fs, n, k);
    }
  }

  /** The ranges are laid out back to back in feature order: each feature starts where the
      previous one ended, and a feature without geometry takes up nothing. */
  lemma RangesContiguous(proj: Projection, fs: seq<Feature>, k: nat)
    requires k + 1 < |fs|
    ensures RangeOf(fs, k + 1).start == RangeOf(fs, k).start + RangeOf(fs, k).count
    ensures !Recorded(fs[k]) ==> RangeOf(fs, k).count == 0 && SegmentsOf(proj, fs[..k + 1]) == SegmentsOf(proj, fs[..k])
  {
    assert fs[..k + 1][..k] == fs[..k];
    if !Recorded(fs[k]) {
      assert PerRing(proj, []) == [];
    }
  }

  /** The buffer of a prefix of the features is a prefix of the whole buffer, with no more
      empty rings. */
  lemma {:induction false} PrefixOf(proj: Projection, fs: seq<Feature>, j: nat)
    requires j <= |fs|
    ensures SegmentsOf(proj, fs[..j]) <= SegmentsOf(proj, fs)
    ensures EmptyRingsOf(fs[..j]) <= EmptyRingsOf(fs)
  {
    if j < |fs| {
      var init := fs[..|fs| - 1];
      assert init[..j] == fs[..j];
      PrefixOf(proj, init, j);
    } else {
      assert fs[..j] == fs;
    }
  }

  /** The range lies inside the buffer and the floats it covers, three per vertex, are `part`. */
  predicate SliceIs(buffer: seq<real>, r: SegmentRange, part: seq<real>) {
    && 0 <= r.start && 0 <= r.count && 3 * (r.start + r.count) <= |buffer|
    && buffer[3 * r.start .. 3 * (r.start + r.count)] == part
  }

  /** Without empty rings, feature k's range lies inside the buffer and the floats it
      covers are exactly what that feature's rings pushed. */
  lemma SliceExact(proj: Projection, fs: seq<Feature>, k: nat)
    requires k < |fs|
    requires EmptyRingsOf(fs) == 0
    ensures SliceIs(SegmentsOf(proj, fs), RangeOf(fs, k), RingsSegments(proj, FeatureRings(fs[k])))
  {
    var before, upto := fs[..k], fs[..k + 1];
    var rings := FeatureRings(fs[k]);
    var pre, mine, all := SegmentsOf(proj, before), RingsSegments(proj, rings), SegmentsOf(proj, fs);
    assert SegmentsOf(proj, upto) == pre + mine && EmptyRingsOf(upto) == EmptyRingsOf(before) + EmptyRings(rings) by {
      assert upto[..k] == before && upto[k] == fs[k];
    }
    assert pre + mine <= all && EmptyRingsOf(before) == 0 && EmptyRings(rings) == 0 by {
      PrefixOf(proj, fs, k + 1);
    }
    assert |pre| == 3 * RangeOf(fs, k).start && |mine| == 3 * RangeOf(fs, k).count by {
      SegmentsLength(proj, before);
      RingsLength(proj, rings);
    }
    SliceOfParts(pre, mine, all, RangeOf(fs, k));
  }

  lemma SliceOfParts(pre: seq<real>, mine: seq<real>, all: seq<real>, r: SegmentRange)
    requires pre + mine <= all && |pre| == 3 * r.start && |mine| == 3 * r.count
    ensures SliceIs(all, r, mine)
  {
    SliceOfPrefix(pre, mine, all);
    assert 3 * (r.start + r.count) == |pre| + |mine|;
  }

  /** What `highlightCountry` relies on: without empty rings the entry of every name in the
      table is a slice of the buffer holding exactly the segments of the last country of
      that name. */
  lemma LinesSliceExact(proj: Projection, fs: seq<Feature>, name: string)
    requires forall k :: 0 <= k < |fs| ==> !Throws(fs[k])
    requires EmptyRingsOf(fs) == 0
    requires name in LinesOf(fs)
    ensures exists k :: LastWriter(fs, name, k)
                     && SliceIs(SegmentsOf(proj, fs), LinesOf(fs)[name], RingsSegments(proj, FeatureRings(fs[k])))
  {
    assert exists k :: LastWriter(fs, name, k) by { LinesHas(fs, name); }
    var k :| LastWriter(fs, name, k);
    LinesEntry(fs, name, k);
    SliceExact(proj, fs, k);
  }

  // ---------------------------------------------------------------------------
  // Worked examples

  /** A feature named by its ADMIN property. */
  function Named(name: string, g: Geom): Feature {
    Feature(Some(Props(Some(name), None, None)), Some(g))
  }

  /** The empty-ring quirk: a Polygon whose only ring is empty pushes nothing, yet its
      entry has count -2 and `vertexOffset` ends at -2, one vertex pair short of the
      buffer. */
  lemma EmptyRingQuirk(proj: Projection)
    ensures LayoutOf(proj, [Named("A", PolygonGeom([[]]))])
         == Layout([], [], map["A" := SegmentRange(0, -2)], -2)
  {
    var fs := [Named("A", PolygonGeom([[]]))];
    assert fs[..0] == [];
    var one: seq<Ring> := [[]];
    assert one[..0] == [];
    assert PerRing(proj, one) == [[]];
    var per := PerRing(proj, one);
    assert per[..0] == [];
  }

  /** A square country followed by the two-island country: the second starts where the first
      ends (6 vertices for 3 edges), counts 6 vertices per island, and the buffer holds
      3 * 18 floats. */
  lemma TwoCountriesLayout(proj: Projection)
    ensures var fs := SquareThenIslands("A", "B");
            && LinesOf(fs) == map["A" := SegmentRange(0, 6), "B" := SegmentRange(6, 12)]
            && OffsetOf(fs) == 18
            && |SegmentsOf(proj, fs)| == 54
  {
    var fs := SquareThenIslands("A", "B");
    assert LinesOf(fs) == map["A" := SegmentRange(0, 6), "B" := SegmentRange(6, 12)] by {
      CountriesOffsets("A", "B");
      assert fs[..1][..0] == [];
    }
    assert OffsetOf(fs) == 18 by { CountriesOffsets("A", "B"); }
    assert |SegmentsOf(proj, fs)| == 54 by {
      CountriesOffsets("A", "B");
      SegmentsLength(proj, fs);
    }
  }

  /** The same two countries under one name: the second entry overwrites the first. */
  lemma DuplicateNameOverwrites()
    ensures LinesOf(SquareThenIslands("A", "A")) == map["A" := SegmentRange(6, 12)]
  {
    var fs := SquareThenIslands("A", "A");
    CountriesOffsets("A", "A");
    assert fs[..1][..0] == [];
  }

  /** A unit square given by its four corners, unclosed, whose ring list goes on with four
      empty rings. */
  function SquareWithEmptyRings(): Polygon {
    [Square(0.0, 0.0, 1.0), [], [], [], []]
  }

  /** Empty rings can cancel real edges: the square pushes its 3 edges, yet the four -2 steps
      leave the entry with count -2, while the polygon still contains (0.5, 0.5), so the
      country can be clicked. */
  lemma EmptyRingsCancelSquare()
    ensures LinesOf([Named("X", PolygonGeom(SquareWithEmptyRings()))]) == map["X" := SegmentRange(0, -2)]
    ensures InPolygon(Point(0.5, 0.5), SquareWithEmptyRings())
  {
    var poly := SquareWithEmptyRings();
    var fs := [Named("X", PolygonGeom(poly))];
    assert fs[..0] == [];
    assert RingsOffset(poly[..1]) == 6 by { assert poly[..1][..0] == []; }
    assert RingsOffset(poly[..2]) == 4 by { assert poly[..2][..1] == poly[..1]; }
    assert RingsOffset(poly[..3]) == 2 by { assert poly[..3][..2] == poly[..2]; }
    assert RingsOffset(poly[..4]) == 0 by { assert poly[..4][..3] == poly[..3]; }
    assert RingsOffset(poly) == -2 by { assert poly[..|poly| - 1] == poly[..4]; }
    var a := Square(0.0, 0.0, 1.0);
    assert Crossings(Point(0.5, 0.5), a) == 1 by {
      assert !EdgeCrosses(Point(0.5, 0.5), a, 0);
      assert !EdgeCrosses(Point(0.5, 0.5), a, 1);
      assert EdgeCrosses(Point(0.5, 0.5), a, 2);
      assert !EdgeCrosses(Point(0.5, 0.5), a, 3);
    }
  }

  /** The square country followed by the two-island country, under the given names. */
  function SquareThenIslands(first: string, second: string): (fs: seq<Feature>)
    ensures |fs| == 2 && forall k :: 0 <= k < |fs| ==> Recorded(fs[k]) && !Throws(fs[k])
  {
    [Named(first, PolygonGeom([Square(0.0, 0.0, 1.0)])), Named(second, MultiPolygonGeom(TwoIslands()))]
  }

  /** The offsets of the square and the two islands, whatever their names. */
  lemma CountriesOffsets(first: string, second: string)
    ensures var fs := SquareThenIslands(first, second);
            && RingsOffset(FeatureRings(fs[0])) == 6 && RingsOffset(FeatureRings(fs[1])) == 12
            && OffsetOf(fs[..1]) == 6 && OffsetOf(fs) == 18 && EmptyRingsOf(fs) == 0
  {
    var fs := SquareThenIslands(first, second);
    var sq := [Square(0.0, 0.0, 1.0)];
    assert sq[..0] == [];
    var a, b := Square(0.0, 0.0, 1.0), Square(5.0, 5.0, 1.0);
    var isl := TwoIslands();
    assert isl == [[a], [b]] && isl[..1] == [[a]] && isl[..1][..0] == [];
    var ab := [a, b];
    assert Concat(isl) == ab;
    assert ab[..1] == [a] && ab[..1][..0] == [];
    var init := fs[..1];
    assert init[..0] == [] && init[0] == fs[0];
    assert fs[..|fs| - 1] == init;
    assert EmptyRings(sq) == 0 && EmptyRings(ab[..1]) == 0 && EmptyRings(ab) == 0;
    assert EmptyRingsOf(init) == 0;
    assert EmptyRingsOf(fs) == EmptyRingsOf(init) + EmptyRings(FeatureRings(fs[1]));
  }
}
