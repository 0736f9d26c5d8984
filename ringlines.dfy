/** The border builder of the second globe: one closed line per ring, added to the borders
    group as it is made, and a table from each country's `properties.name` to its lines.
    A feature without geometry or without properties aborts the build; the lines drawn
    until then stay in the group and the table is never stored. */
module RingLines {
  import opened Wrappers
  import opened Seqs
  import opened Geometry
  import opened Features
  import Borders

  /** A `LineLoop` through the projected vertices of a ring. */
  datatype Line = Line(vertices: seq<Borders.Vec3>)

  /** The table `countryLines` and the lines the borders group holds. */
  datatype Outcome = Outcome(group: seq<Line>, countryLines: Option<map<string, seq<Line>>>)

  function RingLine(proj: Borders.Projection, ring: Ring): Line {
    Line(seq(|ring|, i requires 0 <= i < |ring| => proj(ring[i])))
  }

  /** One line per ring, in ring order. */
  function Lines(proj: Borders.Projection, rings: seq<Ring>): (ls: seq<Line>)
    ensures |ls| == |rings|
  {
    seq(|rings|, r requires 0 <= r < |rings| => RingLine(proj, rings[r]))
  }

  /** The table key: `properties.name || 'Unknown'`, without the ADMIN and NAME keys the
      index items are named by. */
  function LineKey(props: Props): (key: string)
    ensures Truthy(props.name) ==> key == props.name.value
    ensures !Truthy(props.name) ==> key == "Unknown"
  {
    if Truthy(props.name) then props.name.value else "Unknown"
  }

  /** `geom.coordinates` is read before any check and `f.properties.name` after the lines
      are drawn: either one missing aborts the build. */
  predicate Aborts(f: Feature) {
    f.geometry.None? || f.properties.None?
  }

  /** The rings every feature contributes, feature by feature. */
  function AllRings(fs: seq<Feature>): seq<Ring> {
    if |fs| == 0 then [] else AllRings(fs[..|fs| - 1]) + Borders.FeatureRings(fs[|fs| - 1])
  }

  /** The build, feature by feature: once aborted nothing more happens. */
  function Run(proj: Borders.Projection, fs: seq<Feature>): Outcome {
    if |fs| == 0 then Outcome([], Some(map[]))
    else
      var o := Run(proj, fs[..|fs| - 1]);
      var f := fs[|fs| - 1];
      if o.countryLines.None? then o
      else if f.geometry.None? then o.(countryLines := None)
      else
        var ls := Lines(proj, Borders.GeomRings(f.geometry.value));
        if f.properties.None? then Outcome(o.group + ls, None)
        else Outcome(o.group + ls, Some(o.countryLines.value[LineKey(f.properties.value) := ls]))
  }

  // ---------------------------------------------------------------------------
  // The builder

  /** `addRing` up to the push: the projected vertices of a ring. */
  method AddRing(proj: Borders.Projection, ring: Ring) returns (line: Line)
    ensures line == RingLine(proj, ring)
  {
    var pts: seq<Borders.Vec3> := [];
    var i := 0;
    while i < |ring|
      invariant 0 <= i <= |ring|
      invariant pts == seq(i, j requires 0 <= j < i => proj(ring[j]))
    {
      pts := pts + [proj(ring[i])];
      i := i + 1;
    }
    line := Line(pts);
  }

  /** `for (const ring of coords) addRing(ring)`, appending to `lines`. */
  method AddRings(proj: Borders.Projection, lines0: seq<Line>, rings: seq<Ring>) returns (lines: seq<Line>)
    ensures lines == lines0 + Lines(proj, rings)
  {
    lines := lines0;
    var r := 0;
    while r < |rings|
      invariant 0 <= r <= |rings|
      invariant lines == lines0 + Lines(proj, rings[..r])
    {
      var line := AddRing(proj, rings[r]);
      assert Lines(proj, rings[..r + 1]) == Lines(proj, rings[..r]) + [line];
      lines := lines + [line];
      r := r + 1;
    }
    assert rings[..r] == rings;
  }

  /** The lines of one geometry: every ring of a Polygon, every ring of every member of a
      MultiPolygon, none for another type. */
  method GeometryLines(proj: Borders.Projection, g: Geom) returns (lines: seq<Line>)
    ensures lines == Lines(proj, Borders.GeomRings(g))
  {
    lines := [];
    match g {
      case PolygonGeom(c) =>
        lines := AddRings(proj, lines, c);
      case MultiPolygonGeom(ps) =>
        var m := 0;
        while m < |ps|
          invariant 0 <= m <= |ps|
          invariant lines == Lines(proj, Concat(ps[..m]))
        {
          MembersStep(proj, ps, m);
          lines := AddRings(proj, lines, ps[m]);
          m := m + 1;
        }
        assert ps[..m] == ps;
      case OtherGeom =>
    }
  }

  /** The loop of the builder over the features. */
  method BuildCountryLines(proj: Borders.Projection, fs: seq<Feature>)
    returns (group: seq<Line>, countryLines: Option<map<string, seq<Line>>>)
    ensures Outcome(group, countryLines) == Run(proj, fs)
  {
    group := [];
    var table: map<string, seq<Line>> := map[];
    var k := 0;
    while k < |fs|
      invariant 0 <= k <= |fs|
      invariant Run(proj, fs[..k]) == Outcome(group, Some(table))
    {
      assert fs[..k + 1][..k] == fs[..k];
      var f := fs[k];
      if f.geometry.None? {
        countryLines := None;
        AbortStays(proj, fs, k + 1);
        return;
      }
      var lines := GeometryLines(proj, f.geometry.value);
      group := group + lines;
      if f.properties.None? {
        countryLines := None;
        AbortStays(proj, fs, k + 1);
        return;
      }
      table := table[LineKey(f.properties.value) := lines];
      k := k + 1;
    }
    assert fs[..k] == fs;
    countryLines := Some(table);
  }

  // ---------------------------------------------------------------------------
  // Properties

  /** The lines of the first m + 1 members of a MultiPolygon: those of the first m, then the
      rings of member m. */
  lemma MembersStep(proj: Borders.Projection, ps: MultiPolygon, m: nat)
    requires m < |ps|
    ensures Lines(proj, Concat(ps[..m + 1])) == Lines(proj, Concat(ps[..m])) + Lines(proj, ps[m])
  {
    assert ps[..m + 1] == ps[..m] + [ps[m]];
    ConcatAppend(ps[..m], [ps[m]]);
    assert Concat([ps[m]]) == ps[m] by { assert [ps[m]][..0] == []; }
    LinesAppend(proj, Concat(ps[..m]), ps[m]);
  }

  lemma LinesAppend(proj: Borders.Projection, a: seq<Ring>, b: seq<Ring>)
    ensures Lines(proj, a + b) == Lines(proj, a) + Lines(proj, b)
  {
    assert forall r :: 0 <= r < |a + b| ==> Lines(proj, a + b)[r] == (Lines(proj, a) + Lines(proj, b))[r];
  }

  /** After an abort the later features change nothing. */
  lemma {:induction false} AbortStays(proj: Borders.Projection, fs: seq<Feature>, j: nat)
    requires j <= |fs| && Run(proj, fs[..j]).countryLines.None?
    ensures Run(proj, fs) == Run(proj, fs[..j])
    decreases |fs| - j
  {
    if j < |fs| {
      assert fs[..j + 1][..j] == fs[..j];
      AbortStays(proj, fs, j + 1);
    } else {
      assert fs[..j] == fs;
    }
  }

  /** The table is stored exactly when no feature lacks its geometry or its properties. */
  lemma {:induction false} AbortsIff(proj: Borders.Projection, fs: seq<Feature>)
    ensures Run(proj, fs).countryLines.None? <==> exists k :: 0 <= k < |fs| && Aborts(fs[k])
  {
    if |fs| > 0 {
      var init := fs[..|fs| - 1];
      AbortsIff(proj, init);
      assert forall k :: 0 <= k < |init| ==> init[k] == fs[k];
    }
  }

  /** Without an abort the group holds one line per ring of every feature, in order. */
  lemma {:induction false} GroupHasEveryRing(proj: Borders.Projection, fs: seq<Feature>)
    requires Run(proj, fs).countryLines.Some?
    ensures Run(proj, fs).group == Lines(proj, AllRings(fs))
  {
    if |fs| > 0 {
      var init := fs[..|fs| - 1];
      assert Run(proj, init).countryLines.Some?;
      GroupHasEveryRing(proj, init);
      LinesAppend(proj, AllRings(init), Borders.FeatureRings(fs[|fs| - 1]));
    }
  }

  /** When feature k is the first to abort, the group keeps the lines of every ring up to
      and including feature k's own. */
  lemma AbortKeepsDrawnLines(proj: Borders.Projection, fs: seq<Feature>, k: nat)
    requires k < |fs| && Aborts(fs[k]) && forall e :: 0 <= e < k ==> !Aborts(fs[e])
    ensures Run(proj, fs).countryLines.None?
    ensures Run(proj, fs).group == Lines(proj, AllRings(fs[..k + 1]))
  {
    var pre, upTo := fs[..k], fs[..k + 1];
    assert forall e :: 0 <= e < |pre| ==> pre[e] == fs[e];
    AbortsIff(proj, pre);
    GroupHasEveryRing(proj, pre);
    assert upTo[..k] == pre && upTo[k] == fs[k];
    var drawn := Lines(proj, Borders.FeatureRings(fs[k]));
    if fs[k].geometry.None? {
      assert drawn == [];
      assert Run(proj, pre).group + drawn == Run(proj, pre).group;
    }
    assert Run(proj, upTo).countryLines.None?;
    assert Run(proj, upTo).group == Run(proj, pre).group + drawn;
    assert AllRings(upTo) == AllRings(pre) + Borders.FeatureRings(fs[k]);
    LinesAppend(proj, AllRings(pre), Borders.FeatureRings(fs[k]));
    AbortStays(proj, fs, k + 1);
  }

  /** Feature k is the last one keyed `name`. */
  predicate LastKeyed(fs: seq<Feature>, name: string, k: int) {
    && 0 <= k < |fs| && fs[k].properties.Some? && LineKey(fs[k].properties.value) == name
    && forall e :: k < e < |fs| && fs[e].properties.Some? ==> LineKey(fs[e].properties.value) != name
  }

  /** Every feature has geometry and properties: the build never aborts. */
  predicate Complete(fs: seq<Feature>) {
    forall k :: 0 <= k < |fs| ==> fs[k].geometry.Some? && fs[k].properties.Some?
  }

  /** Without an abort the last feature writes its lines under its key. */
  lemma TableSnoc(proj: Borders.Projection, fs: seq<Feature>)
    requires |fs| > 0 && Complete(fs)
    ensures Complete(fs[..|fs| - 1]) && Run(proj, fs).countryLines.Some? && Run(proj, fs[..|fs| - 1]).countryLines.Some?
    ensures var last := fs[|fs| - 1];
            Run(proj, fs).countryLines.value
            == Run(proj, fs[..|fs| - 1]).countryLines.value[LineKey(last.properties.value) := Lines(proj, Borders.GeomRings(last.geometry.value))]
  {
    var init := fs[..|fs| - 1];
    assert forall k :: 0 <= k < |init| ==> init[k] == fs[k];
    AbortsIff(proj, init);
  }

  /** Some feature is keyed `name`. */
  predicate KeyedBy(fs: seq<Feature>, name: string)
    requires Complete(fs)
  {
    exists k :: 0 <= k < |fs| && LineKey(fs[k].properties.value) == name
  }

  lemma KeyedSnoc(fs: seq<Feature>, name: string)
    requires |fs| > 0 && Complete(fs)
    ensures Complete(fs[..|fs| - 1])
    ensures KeyedBy(fs, name) <==> KeyedBy(fs[..|fs| - 1], name) || LineKey(fs[|fs| - 1].properties.value) == name
  {
    var init := fs[..|fs| - 1];
    assert forall k :: 0 <= k < |init| ==> init[k] == fs[k];
    if KeyedBy(fs, name) && LineKey(fs[|fs| - 1].properties.value) != name {
      var k :| 0 <= k < |fs| && LineKey(fs[k].properties.value) == name;
      assert k < |init| && init[k] == fs[k];
    }
  }

  /** The table holds a name exactly when some feature is keyed by it. */
  lemma {:induction false} TableKeys(proj: Borders.Projection, fs: seq<Feature>, name: string)
    requires Complete(fs)
    ensures Run(proj, fs).countryLines.Some?
    ensures name in Run(proj, fs).countryLines.value <==> KeyedBy(fs, name)
  {
    if |fs| > 0 {
      TableSnoc(proj, fs);
      KeyedSnoc(fs, name);
      TableKeys(proj, fs[..|fs| - 1], name);
    }
  }

  /** The entry of a name holds the lines of the last feature keyed by it. */
  lemma {:induction false} TableLast(proj: Borders.Projection, fs: seq<Feature>, name: string, k: int)
    requires Complete(fs) && LastKeyed(fs, name, k)
    ensures Run(proj, fs).countryLines.Some? && name in Run(proj, fs).countryLines.value
    ensures Run(proj, fs).countryLines.value[name] == Lines(proj, Borders.GeomRings(fs[k].geometry.value))
  {
    var init, n := fs[..|fs| - 1], |fs| - 1;
    TableSnoc(proj, fs);
    if k < n {
      assert LineKey(fs[n].properties.value) != name;
      assert LastKeyed(init, name, k) by {
        assert forall e :: 0 <= e < |init| ==> init[e] == fs[e];
      }
      TableLast(proj, init, name, k);
    }
  }

  /** A country's entry holds one line per ring of the last feature keyed by its name; a name
      no feature is keyed by has no entry. */
  lemma TableEntries(proj: Borders.Projection, fs: seq<Feature>, name: string)
    requires forall k :: 0 <= k < |fs| ==> fs[k].geometry.Some? && fs[k].properties.Some?
    ensures Run(proj, fs).countryLines.Some?
    ensures name in Run(proj, fs).countryLines.value
            <==> exists k :: 0 <= k < |fs| && LineKey(fs[k].properties.value) == name
    ensures forall k :: LastKeyed(fs, name, k) ==>
              Run(proj, fs).countryLines.value[name] == Lines(proj, Borders.GeomRings(fs[k].geometry.value))
  {
    TableKeys(proj, fs, name);
    forall k | LastKeyed(fs, name, k)
      ensures Run(proj, fs).countryLines.value[name] == Lines(proj, Borders.GeomRings(fs[k].geometry.value))
    {
      TableLast(proj, fs, name, k);
    }
  }

  /** A country whose properties carry ADMIN but not the same `name` is indexed under one name
      and drawn under another. */
  lemma ExampleKeyDiffers()
    ensures var p := Props(Some("France"), None, Some("French Republic"));
            NameOf(p) == "France" && LineKey(p) == "French Republic"
  {
  }
}
