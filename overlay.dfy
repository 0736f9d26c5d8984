/** The highlight overlay of the quiz menu: `highlightCountry` copies one country's slice of
    the merged border buffer into a mesh of its own and adds it to the highlight group,
    `unhighlightCountry` removes the mesh last recorded under a name, and
    `clearAllCountryColors` removes them all. */
module Overlay {
  import opened Wrappers
  import opened Features
  import opened Borders

  /** An element of a `Float32Array`: reading past either end of a JavaScript array gives
      `undefined`, which a typed array stores as NaN. */
  datatype F32 = Num(v: real) | NaN

  /** A colour as the hex number the code passes around. */
  type Color = int

  const BorderLineColorCorrect: Color := 0x00ff00
  const BorderLineColorWrong: Color := 0xff0000

  /** A highlight mesh: a fresh object per call (`id` stands for its identity), its copied
      vertex positions, and its material colour. */
  datatype Mesh = Mesh(id: nat, positions: seq<F32>, color: Color)

  /** Everything highlighting reads and writes: the range table, the merged position buffer
      and the highlight group (each absent until the borders are built), the name-to-mesh
      map `highlightMeshes`, and the next mesh identity. */
  datatype Scene = Scene(
    lines: Option<map<string, SegmentRange>>,
    buffer: Option<seq<real>>,
    group: Option<seq<Mesh>>,
    meshes: map<string, Mesh>,
    nextId: nat)

  /** What a call of `highlightCountry` does: adds a mesh, returns early, or throws the
      `RangeError` of `new Float32Array(count * 3)` for a negative count. */
  datatype Outcome = Added | Skipped | RangeError

  // ---------------------------------------------------------------------------
  // The copy

  /** `pos.getX(i)`, `getY(i)`, `getZ(i)` for c = 0, 1, 2: element 3 i + c of the buffer, or
      NaN outside it. */
  function Component(buffer: seq<real>, i: int, c: nat): F32
    requires c < 3
  {
    if 0 <= 3 * i + c < |buffer| then Num(buffer[3 * i + c]) else NaN
  }

  /** The array `highlightCountry` fills: element 3 k + c is component c of vertex start + k. */
  function CopySlice(buffer: seq<real>, start: int, count: nat): (arr: seq<F32>)
    ensures |arr| == 3 * count
  {
    seq(3 * count, j requires 0 <= j < 3 * count => Component(buffer, start + j / 3, j % 3))
  }

  /** The buffer's floats as typed-array elements. */
  function Nums(xs: seq<real>): (r: seq<F32>)
    ensures |r| == |xs| && forall i :: 0 <= i < |xs| ==> r[i] == Num(xs[i])
  {
    seq(|xs|, i requires 0 <= i < |xs| => Num(xs[i]))
  }

  lemma Div3(k: int, c: nat)
    requires c < 3
    ensures (3 * k + c) / 3 == k && (3 * k + c) % 3 == c
  {
  }

  /** A range inside the buffer is copied float for float. */
  lemma CopyInRange(buffer: seq<real>, start: int, count: nat)
    requires 0 <= start && 3 * (start + count) <= |buffer|
    ensures CopySlice(buffer, start, count) == Nums(buffer[3 * start .. 3 * (start + count)])
  {
    var a, b := CopySlice(buffer, start, count), Nums(buffer[3 * start .. 3 * (start + count)]);
    forall j | 0 <= j < 3 * count
      ensures a[j] == b[j]
    {
      Div3(j / 3, j % 3);
      assert 3 * (start + j / 3) + j % 3 == 3 * start + j;
    }
  }

  /** A range reaching past the buffer's end copies NaN for every vertex beyond it. */
  lemma CopyPastEnd(buffer: seq<real>, start: int, count: nat, k: nat, c: nat)
    requires k < count && c < 3
    requires |buffer| <= 3 * (start + k)
    ensures CopySlice(buffer, start, count)[3 * k + c] == NaN
  {
    Div3(k, c);
  }

  // ---------------------------------------------------------------------------
  // The three operations on the scene

  function HighlightOutcome(s: Scene, name: string): Outcome {
    if s.lines.None? || name !in s.lines.value || s.buffer.None? || s.group.None? then Skipped
    else if s.lines.value[name].count < 0 then RangeError
    else Added
  }

  /** `highlightCountry(name, color)`: on success a fresh mesh holding the copied slice is
      appended to the group and recorded under the name, over any earlier mesh of that
      name. */
  function Highlighted(s: Scene, name: string, color: Color): Scene {
    if HighlightOutcome(s, name) != Added then s
    else
      var r := s.lines.value[name];
      var mesh := Mesh(s.nextId, CopySlice(s.buffer.value, r.start, r.count), color);
      s.(group := Some(s.group.value + [mesh]), meshes := s.meshes[name := mesh], nextId := s.nextId + 1)
  }

  /** `hg.remove(mesh)`: drops the first child that is the mesh, if there is one. */
  function RemoveChild(g: seq<Mesh>, m: Mesh): (r: seq<Mesh>)
    ensures m in g ==> |r| == |g| - 1
    ensures m !in g ==> r == g
    ensures multiset(r) == multiset(g) - multiset{m}
  {
    if |g| == 0 then []
    else
      assert g == [g[0]] + g[1..];
      if g[0] == m then g[1..] else [g[0]] + RemoveChild(g[1..], m)
  }

  /** `unhighlightCountry(name)`: with a group and a mesh under the name, that mesh leaves
      the group and the name leaves the map; otherwise nothing happens. */
  function Unhighlighted(s: Scene, name: string): Scene {
    if s.group.None? || name !in s.meshes then s
    else s.(group := Some(RemoveChild(s.group.value, s.meshes[name])), meshes := s.meshes - {name})
  }

  /** `clearAllCountryColors()`: with a group, empties it and the map; without one, returns
      before touching the map. */
  function Cleared(s: Scene): Scene {
    if s.group.None? then s else s.(group := Some([]), meshes := map[])
  }

  /** The borders are built: the range table, the buffer and a new empty group are stored. */
  function Attached(s: Scene, layout: Layout): Scene {
    s.(lines := Some(layout.lines), buffer := Some(layout.segments), group := Some([]))
  }

  // ---------------------------------------------------------------------------
  // The invariant

  /** No two children of the group share an identity. */
  predicate DistinctIds(g: seq<Mesh>) {
    forall i, j :: 0 <= i < j < |g| ==> g[i].id != g[j].id
  }

  /** Mesh identities in the group are distinct and already handed out, and the map records
      distinct meshes of the group (no group, no meshes). */
  ghost predicate WellFormed(s: Scene) {
    && (s.group.None? ==> s.meshes == map[])
    && (s.group.Some? ==>
          && DistinctIds(s.group.value)
          && (forall i :: 0 <= i < |s.group.value| ==> s.group.value[i].id < s.nextId)
          && (forall n :: n in s.meshes ==> s.meshes[n] in s.group.value)
          && (forall n, n' :: n in s.meshes && n' in s.meshes && n != n' ==> s.meshes[n].id != s.meshes[n'].id))
  }

  lemma RemoveChildIn(g: seq<Mesh>, m: Mesh, x: Mesh)
    ensures x in RemoveChild(g, m) ==> x in g
    ensures x in g && x != m ==> x in RemoveChild(g, m)
  {
    assert x in RemoveChild(g, m) <==> x in multiset(RemoveChild(g, m));
    assert x in g <==> x in multiset(g);
  }

  /** A group of distinct identities: its tail has them too, and none is the head's. */
  lemma TailDistinct(g: seq<Mesh>)
    requires |g| > 0 && DistinctIds(g)
    ensures DistinctIds(g[1..]) && forall y :: y in g[1..] ==> y.id != g[0].id
  {
    var tail := g[1..];
    forall i, j | 0 <= i < j < |tail|
      ensures tail[i].id != tail[j].id
    {
      assert tail[i] == g[i + 1] && tail[j] == g[j + 1];
    }
    forall y | y in tail
      ensures y.id != g[0].id
    {
      var e :| 0 <= e < |tail| && tail[e] == y;
      assert g[e + 1] == y;
    }
  }

  lemma ConsDistinct(x: Mesh, rest: seq<Mesh>)
    requires DistinctIds(rest) && forall y :: y in rest ==> y.id != x.id
    ensures DistinctIds([x] + rest)
  {
    var r := [x] + rest;
    forall i, j | 0 <= i < j < |r|
      ensures r[i].id != r[j].id
    {
      assert r[j] == rest[j - 1];
      if i > 0 {
        assert r[i] == rest[i - 1];
      }
    }
  }

  /** Removing a child from a group of distinct identities keeps them distinct. */
  lemma {:induction false} RemoveChildDistinct(g: seq<Mesh>, m: Mesh)
    requires DistinctIds(g)
    ensures DistinctIds(RemoveChild(g, m))
  {
    if |g| > 0 {
      TailDistinct(g);
      if g[0] != m {
        var tail := g[1..];
        RemoveChildDistinct(tail, m);
        var rt := RemoveChild(tail, m);
        forall y | y in rt
          ensures y.id != g[0].id
        {
          RemoveChildIn(tail, m, y);
        }
        ConsDistinct(g[0], rt);
      }
    }
  }

  lemma HighlightKeeps(s: Scene, name: string, color: Color)
    requires WellFormed(s)
    ensures WellFormed(Highlighted(s, name, color))
  {
    var t := Highlighted(s, name, color);
    if HighlightOutcome(s, name) == Added {
      var g := t.group.value;
      assert g[|g| - 1].id == s.nextId;
      forall n | n in t.meshes
        ensures t.meshes[n] in g
      {
        if n != name {
          assert t.meshes[n] == s.meshes[n] && t.meshes[n] in s.group.value;
        }
      }
      forall n | n in s.meshes
        ensures s.meshes[n].id < s.nextId
      {
        var e :| 0 <= e < |s.group.value| && s.group.value[e] == s.meshes[n];
      }
    }
  }

  lemma UnhighlightKeeps(s: Scene, name: string)
    requires WellFormed(s)
    ensures WellFormed(Unhighlighted(s, name))
  {
    if s.group.Some? && name in s.meshes {
      var g, m := s.group.value, s.meshes[name];
      var t := Unhighlighted(s, name);
      var r := RemoveChild(g, m);
      assert t.group.value == r;
      RemoveChildDistinct(g, m);
      forall i | 0 <= i < |r|
        ensures r[i].id < t.nextId
      {
        RemoveChildIn(g, m, r[i]);
        var e :| 0 <= e < |g| && g[e] == r[i];
      }
      forall n | n in t.meshes
        ensures t.meshes[n] in r
      {
        assert n != name && t.meshes[n] == s.meshes[n];
        assert s.meshes[n].id != m.id;
        RemoveChildIn(g, m, s.meshes[n]);
      }
      forall n, n' | n in t.meshes && n' in t.meshes && n != n'
        ensures t.meshes[n].id != t.meshes[n'].id
      {
        assert t.meshes[n] == s.meshes[n] && t.meshes[n'] == s.meshes[n'];
      }
      assert DistinctIds(r);
      assert t.group == Some(r) && t.nextId == s.nextId;
    }
  }

  lemma ClearKeeps(s: Scene)
    requires WellFormed(s)
    ensures WellFormed(Cleared(s))
  {
  }

  lemma AttachKeeps(s: Scene, layout: Layout)
    requires WellFormed(s) && s.meshes == map[]
    ensures WellFormed(Attached(s, layout))
  {
  }

  // ---------------------------------------------------------------------------
  // What the operations achieve

  /** Highlighting a country of a built layout without empty rings adds a mesh holding
      exactly the segments of the last country of that name, vertex for vertex. */
  lemma HighlightShowsCountry(proj: Projection, fs: seq<Feature>, s: Scene, name: string, color: Color)
    requires forall k :: 0 <= k < |fs| ==> !Throws(fs[k])
    requires EmptyRingsOf(fs) == 0
    requires s.lines == Some(LinesOf(fs)) && s.buffer == Some(SegmentsOf(proj, fs)) && s.group.Some?
    requires name in LinesOf(fs)
    ensures HighlightOutcome(s, name) == Added
    ensures var t := Highlighted(s, name, color);
            && name in t.meshes && t.meshes[name].color == color
            && t.group == Some(s.group.value + [t.meshes[name]])
            && exists k :: LastWriter(fs, name, k)
                        && t.meshes[name].positions == Nums(RingsSegments(proj, FeatureRings(fs[k])))
  {
    LinesSliceExact(proj, fs, name);
    var r := LinesOf(fs)[name];
    CopyInRange(SegmentsOf(proj, fs), r.start, r.count);
  }

  /** No name in the table makes `highlightCountry` throw. */
  ghost predicate NeverThrows(s: Scene) {
    forall name :: HighlightOutcome(s, name) != RangeError
  }

  /** A table built from borders without empty rings never makes highlighting throw: every
      entry's count is a slice length, so it is not negative. */
  lemma BuiltNeverThrows(proj: Projection, fs: seq<Feature>, s: Scene)
    requires forall k :: 0 <= k < |fs| ==> !Throws(fs[k])
    requires EmptyRingsOf(fs) == 0
    requires s.lines == Some(LinesOf(fs)) && s.buffer == Some(SegmentsOf(proj, fs))
    ensures NeverThrows(s)
  {
    forall name
      ensures HighlightOutcome(s, name) != RangeError
    {
      if name in LinesOf(fs) && s.group.Some? {
        HighlightShowsCountry(proj, fs, s, name, BorderLineColorCorrect);
      }
    }
  }

  /** Unhighlighting touches only the name: its mesh leaves the group, every other name
      keeps its mesh, and every other child stays. */
  lemma UnhighlightRemovesOnlyName(s: Scene, name: string)
    requires WellFormed(s) && s.group.Some? && name in s.meshes
    ensures var t := Unhighlighted(s, name);
            && t.meshes == s.meshes - {name}
            && (forall n :: n in s.meshes && n != name ==> t.meshes[n] == s.meshes[n])
            && |t.group.value| == |s.group.value| - 1
            && multiset(t.group.value) == multiset(s.group.value) - multiset{s.meshes[name]}
            && t.lines == s.lines && t.buffer == s.buffer && t.nextId == s.nextId
  {
  }

  /** Highlighting an unhighlighted name and then unhighlighting it restores the scene; only
      the identity counter has moved. */
  lemma HighlightThenUnhighlight(s: Scene, name: string, color: Color)
    requires WellFormed(s) && name !in s.meshes && HighlightOutcome(s, name) == Added
    ensures Unhighlighted(Highlighted(s, name, color), name) == s.(nextId := s.nextId + 1)
  {
    var t := Highlighted(s, name, color);
    var g, m := s.group.value, t.meshes[name];
    assert t.group == Some(g + [m]) && m.id == s.nextId;
    assert m !in g by {
      forall e | 0 <= e < |g|
        ensures g[e] != m
      {
        assert g[e].id < m.id;
      }
    }
    RemoveAppended(g, m);
    assert t.meshes - {name} == s.meshes by {
      assert t.meshes == s.meshes[name := m];
    }
  }

  lemma {:induction false} RemoveAppended(g: seq<Mesh>, m: Mesh)
    requires m !in g
    ensures RemoveChild(g + [m], m) == g
  {
    if |g| > 0 {
      assert (g + [m])[1..] == g[1..] + [m];
      RemoveAppended(g[1..], m);
    }
  }

  /** Highlighting a name twice records only the second mesh, so unhighlighting it leaves the
      first on screen, out of reach by name; only clearing removes it. */
  lemma RehighlightLeaksMesh(s: Scene, name: string, c1: Color, c2: Color)
    requires WellFormed(s) && name !in s.meshes && HighlightOutcome(s, name) == Added
    ensures var once := Highlighted(s, name, c1);
            var t := Unhighlighted(Highlighted(once, name, c2), name);
            && t.group == Some(s.group.value + [once.meshes[name]])
            && name !in t.meshes
            && Cleared(t).group == Some([])
  {
    var once := Highlighted(s, name, c1);
    HighlightKeeps(s, name, c1);
    var twice := Highlighted(once, name, c2);
    var first, second := once.meshes[name], twice.meshes[name];
    var g := once.group.value;
    assert forall e :: 0 <= e < |g| ==> g[e].id < second.id;
    RemoveAppended(g, second);
  }

  /** The empty-ring entry (count -2) makes `highlightCountry` throw instead of adding a mesh. */
  lemma EmptyRingHighlightThrows(proj: Projection, s: Scene)
    requires s.lines == Some(LayoutOf(proj, [Named("A", PolygonGeom([[]]))]).lines)
    requires s.buffer.Some? && s.group.Some?
    ensures HighlightOutcome(s, "A") == RangeError
    ensures Highlighted(s, "A", BorderLineColorCorrect) == s
  {
    EmptyRingQuirk(proj);
  }

  // ---------------------------------------------------------------------------
  // The overlay as the component keeps it

  /** The copy loop of `highlightCountry`: a new typed array of count * 3 elements, filled
      vertex by vertex from `pos.getX/getY/getZ(i)` for i from start. */
  method CopyRange(pos: seq<real>, start: int, count: nat) returns (arr: array<F32>)
    ensures fresh(arr) && arr[..] == CopySlice(pos, start, count)
  {
    arr := new F32[count * 3](_ => NaN);
    var j := 0;
    var i := start;
    while i < start + count
      invariant start <= i <= start + count
      invariant j == 3 * (i - start)
      invariant forall q :: 0 <= q < j ==> arr[q] == CopySlice(pos, start, count)[q]
      modifies arr
    {
      Div3(i - start, 0);
      Div3(i - start, 1);
      Div3(i - start, 2);
      arr[j] := Component(pos, i, 0);
      j := j + 1;
      arr[j] := Component(pos, i, 1);
      j := j + 1;
      arr[j] := Component(pos, i, 2);
      j := j + 1;
      i := i + 1;
    }
  }

  /** The parts of the shared state ref highlighting uses, updated in place. */
  class Highlighter {
    var lines: Option<map<string, SegmentRange>>
    var buffer: Option<seq<real>>
    var group: Option<seq<Mesh>>
    var meshes: map<string, Mesh>
    var nextId: nat

    function State(): Scene
      reads this
    {
      Scene(lines, buffer, group, meshes, nextId)
    }

    ghost predicate Valid()
      reads this
    {
      WellFormed(State())
    }

    /** Before the borders are built nothing is there. */
    constructor ()
      ensures State() == Scene(None, None, None, map[], 0)
      ensures Valid()
    {
      lines, buffer, group, meshes, nextId := None, None, None, map[], 0;
    }

    /** What `fetchBorders` stores for highlighting once the buffer is built. */
    method Attach(layout: Layout)
      modifies this
      ensures State() == Attached(old(State()), layout)
      ensures old(meshes) == map[] && old(Valid()) ==> Valid()
    {
      if Valid() && meshes == map[] {
        AttachKeeps(State(), layout);
      }
      lines, buffer, group := Some(layout.lines), Some(layout.segments), Some([]);
    }

    /** `highlightCountry(name, color)`. */
    method HighlightCountry(name: string, color: Color) returns (outcome: Outcome)
      modifies this
      ensures outcome == HighlightOutcome(old(State()), name)
      ensures State() == Highlighted(old(State()), name, color)
      ensures old(Valid()) ==> Valid()
    {
      ghost var before := State();
      outcome := HighlightOutcome(State(), name);
      if lines.None? || name !in lines.value || buffer.None? || group.None? {
        return;
      }
      var entry := lines.value[name];
      var pos := buffer.value;
      if entry.count < 0 {
        return;
      }
      var arr := CopyRange(pos, entry.start, entry.count);
      var mesh := Mesh(nextId, arr[..], color);
      group := Some(group.value + [mesh]);
      meshes := meshes[name := mesh];
      nextId := nextId + 1;
      if WellFormed(before) {
        HighlightKeeps(before, name, color);
      }
    }

    /** `unhighlightCountry(name)`. */
    method UnhighlightCountry(name: string)
      modifies this
      ensures State() == Unhighlighted(old(State()), name)
      ensures old(Valid()) ==> Valid()
    {
      if Valid() {
        UnhighlightKeeps(State(), name);
      }
      if group.None? || name !in meshes {
        return;
      }
      var mesh := meshes[name];
      group := Some(RemoveChild(group.value, mesh));
      meshes := meshes - {name};
    }

    /** `clearAllCountryColors()`: removes the children last to first, then resets the map. */
    method ClearAllCountryColors()
      modifies this
      ensures State() == Cleared(old(State()))
      ensures old(Valid()) ==> Valid()
    {
      if Valid() {
        ClearKeeps(State());
      }
      if group.None? {
        return;
      }
      var i := |group.value| - 1;
      while i >= 0
        invariant -1 <= i
        invariant group.Some? && |group.value| == i + 1
        invariant lines == old(lines) && buffer == old(buffer) && meshes == old(meshes) && nextId == old(nextId)
      {
        var child := group.value[i];
        group := Some(RemoveChild(group.value, child));
        i := i - 1;
      }
      meshes := map[];
    }
  }
}
