/** The scoring rules and the question list of the quiz menu: `calculatePoints`, the
    `accuracy` figure, `generateProblemSet`, and the centroid `findLocation` flies to. */
module Quiz {
  import opened Wrappers
  import opened Geometry
  import opened BBox
  import opened Features
  import opened Seqs

  /** The values of the question-type setting (`QUESTION_TYPES`); a question itself is never
      `Mixed`. */
  datatype QuizType = Flag | Capital | Name | Mixed

  /** The length setting: a number of questions, or 'all'. */
  datatype QuizLength = All | Questions(n: nat)

  /** A `countryMeta` record, as far as the quiz reads it. */
  datatype Meta = Meta(island: bool, flag: string, capital: string)

  /** A question record. `usedHint` is absent (falsy) until `findLocation` sets it. */
  datatype Question = Question(
    id: int, country: string, qtype: QuizType, flag: string, capital: string,
    firstTry: bool, timeSpent: int, attempts: int, startTime: int, usedHint: bool)

  // ---------------------------------------------------------------------------
  // Points and accuracy

  /** `calculatePoints(question)` with the current `streak`: nothing after a hint, otherwise
      10 base points, 5 for a first try, 3 for an answer under 10 seconds and the streak,
      capped at 5, as a bonus. */
  function CalculatePoints(q: Question, streak: int): (points: int)
    ensures q.usedHint <==> points == 0
    ensures !q.usedHint ==> 10 <= points <= 23
  {
    if q.usedHint then 0
    else
      10 + (if q.firstTry then 5 else 0) + (if q.timeSpent < 10 then 3 else 0)
         + (if streak > 0 then if streak < 5 then streak else 5 else 0)
  }

  /** Each bonus is independent of the others: losing the first try costs exactly 5 points,
      a slow answer exactly 3, and a longer streak never more than the streak of 5 does. */
  lemma PointsBonuses(q: Question, streak: int)
    requires !q.usedHint
    ensures q.firstTry ==> CalculatePoints(q, streak) == CalculatePoints(q.(firstTry := false), streak) + 5
    ensures q.timeSpent < 10 ==> CalculatePoints(q, streak) == CalculatePoints(q.(timeSpent := 10), streak) + 3
    ensures streak >= 5 ==> CalculatePoints(q, streak) == CalculatePoints(q, 5)
    ensures streak <= 0 ==> CalculatePoints(q, streak) == CalculatePoints(q, 0)
    ensures 0 <= streak <= 5 ==> CalculatePoints(q, streak) == CalculatePoints(q, 0) + streak
  {
  }

  /** `Math.round(c / t * 100)` on exact values, or 0 when t is 0. The second clause is
      a - 1/2 <= 100 c / t < a + 1/2 multiplied out by 2 t: the nearest integer, halves
      rounding up. */
  function Accuracy(c: nat, t: nat): (a: int)
    ensures t == 0 ==> a == 0
    ensures t > 0 ==> 2 * (t * a) - t <= 200 * c < 2 * (t * a) + t
  {
    if t == 0 then 0
    else
      var a := (200 * c + t) / (2 * t);
      DivBounds(200 * c + t, 2 * t);
      a
  }

  /** The Euclidean quotient by a positive divisor brackets the dividend. */
  lemma DivBounds(n: int, d: int)
    requires d > 0
    ensures d * (n / d) <= n < d * (n / d) + d
  {
  }

  /** With no more first-try answers than attempts, the accuracy is a percentage, and all
      first-try answers give 100. */
  lemma AccuracyIsPercentage(c: nat, t: nat)
    requires c <= t
    ensures 0 <= Accuracy(c, t) <= 100
    ensures c == t && t > 0 ==> Accuracy(c, t) == 100
  {
    if t > 0 {
      var a := Accuracy(c, t);
      ScaledBounds(t, a);
    }
  }

  /** For positive t: t a < t gives a < 1, and -t < t a gives a > -1. */
  lemma ScaledBounds(t: int, a: int)
    requires t > 0
    ensures t * a < t * 101 ==> a <= 100
    ensures -t < t * a ==> a >= 0
    ensures t * 99 < t * a ==> a >= 100
  {
    if a > 100 {
      assert t * a >= t * 101;
    }
    if a < 0 {
      assert t * a <= -t;
    }
    if a < 100 {
      assert t * a <= t * 99;
    }
  }

  // ---------------------------------------------------------------------------
  // The question list

  predicate Distinct<T(==)>(xs: seq<T>) {
    forall i, j :: 0 <= i < j < |xs| ==> xs[i] != xs[j]
  }

  /** `order` lists each index below n exactly once: the outcome of the random shuffle. */
  predicate IsPermutation(order: seq<nat>, n: nat) {
    |order| == n && (forall i :: 0 <= i < n ==> order[i] < n) && Distinct(order)
  }

  /** `countryNames.filter((name) => !countryMeta[name].island)`. */
  function Mainland(names: seq<string>, meta: map<string, Meta>): (r: seq<string>)
    requires forall i :: 0 <= i < |names| ==> names[i] in meta
    ensures |r| <= |names|
    ensures forall x :: x in r <==> x in names && !meta[x].island
    ensures Distinct(names) ==> Distinct(r)
  {
    if |names| == 0 then []
    else
      var rest := Mainland(names[1..], meta);
      assert forall x :: x in names[1..] ==> x in names;
      if meta[names[0]].island then rest
      else
        var r := [names[0]] + rest;
        assert Distinct(names) ==> names[0] !in names[1..];
        r
  }

  /** The names the quiz draws from. */
  function Eligible(names: seq<string>, meta: map<string, Meta>, ignoreIslands: bool): seq<string>
    requires forall i :: 0 <= i < |names| ==> names[i] in meta
  {
    if ignoreIslands then Mainland(names, meta) else names
  }

  /** The number of questions: every eligible name for 'all', else at most the setting. */
  function QuizSize(len: QuizLength, n: nat): nat {
    match len
    case All => n
    case Questions(k) => if k < n then k else n
  }

  /** `['flag', 'capital', 'name'][Math.floor(Math.random() * 3)]` for a draw below 3. */
  function DrawnType(pick: nat): QuizType
    requires pick < 3
  {
    [Flag, Capital, Name][pick]
  }

  /** `generateProblemSet()` with `Object.keys(countryMeta)` as `names`, the shuffle given as
      the permutation `order`, the type draws of a mixed quiz as `picks`, and `Date.now()`
      as `now`. */
  function GenerateProblemSet(
    names: seq<string>, meta: map<string, Meta>, ignoreIslands: bool, quizType: QuizType,
    quizLength: QuizLength, order: seq<nat>, picks: seq<nat>, now: int): (ps: seq<Question>)
    requires forall i :: 0 <= i < |names| ==> names[i] in meta
    requires IsPermutation(order, |Eligible(names, meta, ignoreIslands)|)
    requires |Eligible(names, meta, ignoreIslands)| <= |picks| && forall i :: 0 <= i < |picks| ==> picks[i] < 3
    ensures |ps| == QuizSize(quizLength, |Eligible(names, meta, ignoreIslands)|)
    ensures forall i :: 0 <= i < |ps| ==>
              && ps[i].country in names
              && (ignoreIslands ==> !meta[ps[i].country].island)
              && ps[i].flag == meta[ps[i].country].flag && ps[i].capital == meta[ps[i].country].capital
    ensures forall i :: 0 <= i < |ps| ==>
              ps[i].firstTry && ps[i].attempts == 0 && ps[i].timeSpent == 0 && !ps[i].usedHint
              && ps[i].id == now + i && ps[i].startTime == now
    ensures forall i :: 0 <= i < |ps| ==> ps[i].qtype != Mixed && (quizType != Mixed ==> ps[i].qtype == quizType)
    ensures Distinct(names) ==> forall i, j :: 0 <= i < j < |ps| ==> ps[i].country != ps[j].country
  {
    var pool := Eligible(names, meta, ignoreIslands);
    var shuffled := Shuffled(pool, order);
    var length := QuizSize(quizLength, |shuffled|);
    assert forall x :: x in pool ==> x in names && (ignoreIslands ==> !meta[x].island);
    assert Distinct(names) ==> Distinct(pool);
    var ps := Questions(shuffled[..length], meta, quizType, picks, now);
    assert forall i :: 0 <= i < |ps| ==> ps[i].country == shuffled[i] && shuffled[i] in pool;
    ps
  }

  /** One fresh question per country, in order: the i-th is numbered now + i and, in a mixed
      quiz, takes its type from the i-th draw. */
  function Questions(countries: seq<string>, meta: map<string, Meta>, quizType: QuizType,
                     picks: seq<nat>, now: int): (ps: seq<Question>)
    requires forall i :: 0 <= i < |countries| ==> countries[i] in meta
    requires |countries| <= |picks| && forall i :: 0 <= i < |picks| ==> picks[i] < 3
    ensures |ps| == |countries|
    ensures forall i :: 0 <= i < |ps| ==>
              && ps[i].country == countries[i]
              && ps[i].flag == meta[countries[i]].flag && ps[i].capital == meta[countries[i]].capital
    ensures forall i :: 0 <= i < |ps| ==>
              ps[i].firstTry && ps[i].attempts == 0 && ps[i].timeSpent == 0 && !ps[i].usedHint
              && ps[i].id == now + i && ps[i].startTime == now
    ensures forall i :: 0 <= i < |ps| ==> ps[i].qtype != Mixed && (quizType != Mixed ==> ps[i].qtype == quizType)
  {
    seq(|countries|, i requires 0 <= i < |countries| =>
      var country := countries[i];
      Question(now + i, country, if quizType == Mixed then DrawnType(picks[i]) else quizType,
               meta[country].flag, meta[country].capital, true, 0, 0, now, false))
  }

  /** The pool in the order of the permutation. */
  function Shuffled<T>(pool: seq<T>, order: seq<nat>): (r: seq<T>)
    requires IsPermutation(order, |pool|)
    ensures |r| == |pool| && forall i :: 0 <= i < |r| ==> r[i] == pool[order[i]] && r[i] in pool
    ensures Distinct(pool) ==> Distinct(r)
  {
    var r := seq(|pool|, i requires 0 <= i < |pool| => pool[order[i]]);
    assert Distinct(pool) ==> Distinct(r) by {
      if Distinct(pool) {
        forall i, j | 0 <= i < j < |r|
          ensures r[i] != r[j]
        {
          assert order[i] != order[j];
        }
      }
    }
    r
  }

  /** The indices 0 .. n - 1 in order. */
  function Iota(n: nat): (r: seq<nat>)
    ensures |r| == n && forall i :: 0 <= i < n ==> r[i] == i
  {
    seq(n, i requires 0 <= i < n => i)
  }

  /** A sequence without repetitions has as many distinct elements as it has entries. */
  lemma {:induction false} DistinctCard<T>(s: seq<T>)
    requires Distinct(s)
    ensures |set x | x in s| == |s|
  {
    if |s| > 0 {
      var init := s[..|s| - 1];
      DistinctCard(init);
      assert (set x | x in s) == (set x | x in init) + {s[|s| - 1]};
      assert s[|s| - 1] !in init;
    }
  }

  /** A permutation of 0 .. n - 1 reaches every index. */
  lemma PermutationCovers(order: seq<nat>, n: nat, k: nat)
    requires IsPermutation(order, n) && k < n
    ensures k in order
  {
    var range: set<nat>, hit: set<nat> := set x: nat | x in Iota(n), set x: nat | x in order;
    assert hit <= range by {
      forall x | x in hit
        ensures x in range
      {
        assert Iota(n)[x] == x;
      }
    }
    DistinctCard(order);
    DistinctCard(Iota(n));
    assert |hit| == |range|;
    SameCardSubset(hit, range);
    assert Iota(n)[k] == k && k in range;
    assert k in hit;
  }

  /** A subset as large as its superset is the whole of it. */
  lemma SameCardSubset<T>(a: set<T>, b: set<T>)
    requires a <= b && |a| == |b|
    ensures a == b
  {
    var missing := b - a;
    assert b == a + missing && a * missing == {};
  }

  /** An 'all' quiz asks about every eligible name. */
  lemma AllAsksEveryName(
    names: seq<string>, meta: map<string, Meta>, ignoreIslands: bool, quizType: QuizType,
    order: seq<nat>, picks: seq<nat>, now: int, name: string)
    requires forall i :: 0 <= i < |names| ==> names[i] in meta
    requires IsPermutation(order, |Eligible(names, meta, ignoreIslands)|)
    requires |Eligible(names, meta, ignoreIslands)| <= |picks| && forall i :: 0 <= i < |picks| ==> picks[i] < 3
    requires name in Eligible(names, meta, ignoreIslands)
    ensures var ps := GenerateProblemSet(names, meta, ignoreIslands, quizType, All, order, picks, now);
            exists i :: 0 <= i < |ps| && ps[i].country == name
  {
    var pool := Eligible(names, meta, ignoreIslands);
    var ps := GenerateProblemSet(names, meta, ignoreIslands, quizType, All, order, picks, now);
    var k :| 0 <= k < |pool| && pool[k] == name;
    PermutationCovers(order, |pool|, k);
    var i :| 0 <= i < |order| && order[i] == k;
    assert ps[i].country == name;
  }

  // ---------------------------------------------------------------------------
  // The centroid `findLocation` flies the camera to

  /** The two territories share a flag; the hint shows the larger one. */
  const MinorOutlyingIslands: string := "United States Minor Outlying Islands"
  const UnitedStates: string := "United States of America"

  /** The name `findLocation` looks up for the current question's country. */
  function HintName(country: string): (n: string)
    ensures country == MinorOutlyingIslands ==> n == UnitedStates
    ensures country != MinorOutlyingIslands ==> n == country
  {
    if country == MinorOutlyingIslands then UnitedStates else country
  }

  /** `features.find((item) => item.feature.name === name)`: the first item of that name. */
  function FindItem(items: seq<Item>, name: string): (r: Option<Item>)
    ensures r.None? <==> forall i :: 0 <= i < |items| ==> items[i].country.name != name
    ensures r.Some? ==> exists k :: 0 <= k < |items| && items[k] == r.value && r.value.country.name == name
                                 && forall e :: 0 <= e < k ==> items[e].country.name != name
  {
    if |items| == 0 then None
    else if items[0].country.name == name then Some(items[0])
    else
      var r := FindItem(items[1..], name);
      FirstMatchShift(items, name, r);
      r
  }

  /** A first match in the tail, behind a head that does not match, is a first match. */
  lemma FirstMatchShift(items: seq<Item>, name: string, r: Option<Item>)
    requires |items| > 0 && items[0].country.name != name
    requires r.None? <==> forall i :: 0 <= i < |items| - 1 ==> items[1..][i].country.name != name
    requires r.Some? ==> exists k :: 0 <= k < |items| - 1 && items[1..][k] == r.value && r.value.country.name == name
                                   && forall e :: 0 <= e < k ==> items[1..][e].country.name != name
    ensures r.None? <==> forall i :: 0 <= i < |items| ==> items[i].country.name != name
    ensures r.Some? ==> exists k :: 0 <= k < |items| && items[k] == r.value && r.value.country.name == name
                                 && forall e :: 0 <= e < k ==> items[e].country.name != name
  {
    assert forall i :: 1 <= i < |items| ==> items[i] == items[1..][i - 1];
    if r.Some? {
      var k :| 0 <= k < |items| - 1 && items[1..][k] == r.value && r.value.country.name == name
               && forall e :: 0 <= e < k ==> items[1..][e].country.name != name;
      assert items[k + 1] == r.value;
      forall e | 0 <= e < k + 1
        ensures items[e].country.name != name
      {
        if e > 0 {
          assert items[e] == items[1..][e - 1];
        }
      }
    } else {
      forall i | 0 <= i < |items|
        ensures items[i].country.name != name
      {
        if i > 0 {
          assert items[i] == items[1..][i - 1];
        }
      }
    }
  }

  /** The outer rings whose vertices the centroid averages: ring 0 of a Polygon, ring 0 of
      each member of a MultiPolygon, none for another type. None when a polygon has no
      ring 0, where `forEach` on `undefined` throws. */
  function OuterRings(g: Geom): Option<seq<Ring>> {
    match g
    case PolygonGeom(c) => if |c| == 0 then None else Some([c[0]])
    case MultiPolygonGeom(ps) => MembersOuterRings(ps)
    case OtherGeom => Some([])
  }

  function MembersOuterRings(ps: MultiPolygon): Option<seq<Ring>> {
    if |ps| == 0 then Some([])
    else
      var init := MembersOuterRings(ps[..|ps| - 1]);
      var last := ps[|ps| - 1];
      if init.None? || |last| == 0 then None else Some(init.value + [last[0]])
  }

  function SumX(pts: seq<Point>): real {
    if |pts| == 0 then 0.0 else SumX(pts[..|pts| - 1]) + pts[|pts| - 1].x
  }

  function SumY(pts: seq<Point>): real {
    if |pts| == 0 then 0.0 else SumY(pts[..|pts| - 1]) + pts[|pts| - 1].y
  }

  /** The running sums of `findLocation` can be taken piecewise. */
  lemma {:induction false} SumsAppend(a: seq<Point>, b: seq<Point>)
    ensures SumX(a + b) == SumX(a) + SumX(b) && SumY(a + b) == SumY(a) + SumY(b)
  {
    if |b| > 0 {
      var ab := a + b;
      assert ab[..|ab| - 1] == a + b[..|b| - 1];
      SumsAppend(a, b[..|b| - 1]);
    } else {
      assert a + b == a;
    }
  }

  /** The mean of the vertices, or None when there are none (and the camera stays put). */
  function Centroid(pts: seq<Point>): Option<Point> {
    if |pts| == 0 then None
    else Some(Point(SumX(pts) / (|pts| as real), SumY(pts) / (|pts| as real)))
  }

  /** k copies of v added up: k v without a product of two unknowns. */
  function Copies(k: nat, v: real): real {
    if k == 0 then 0.0 else Copies(k - 1, v) + v
  }

  lemma {:induction false} CopiesIsProduct(k: nat, v: real)
    ensures Copies(k, v) == (k as real) * v
  {
    if k > 0 {
      CopiesIsProduct(k - 1, v);
      assert (k as real) * v == ((k - 1) as real) * v + v;
    }
  }

  /** A sum of n values between lo and hi lies between n copies of lo and n copies of hi. */
  lemma {:induction false} SumBounds(pts: seq<Point>, b: Box)
    requires Encloses(b, pts)
    ensures Copies(|pts|, b.minX) <= SumX(pts) <= Copies(|pts|, b.maxX)
    ensures Copies(|pts|, b.minY) <= SumY(pts) <= Copies(|pts|, b.maxY)
  {
    if |pts| > 0 {
      var init, last := pts[..|pts| - 1], pts[|pts| - 1];
      assert Encloses(b, init) by {
        assert forall i :: 0 <= i < |init| ==> init[i] == pts[i];
      }
      SumBounds(init, b);
    }
  }

  /** Sums of n coordinates inside the box have their means inside it. */
  lemma MeansBetween(sx: real, sy: real, n: nat, b: Box)
    requires n > 0
    requires Copies(n, b.minX) <= sx <= Copies(n, b.maxX) && Copies(n, b.minY) <= sy <= Copies(n, b.maxY)
    ensures b.minX <= sx / (n as real) <= b.maxX && b.minY <= sy / (n as real) <= b.maxY
  {
    MeanOfCopies(sx, n, b.minX, b.maxX);
    MeanOfCopies(sy, n, b.minY, b.maxY);
  }

  lemma MeanOfCopies(total: real, n: nat, lo: real, hi: real)
    requires n > 0 && Copies(n, lo) <= total <= Copies(n, hi)
    ensures lo <= total / (n as real) <= hi
  {
    CopiesIsProduct(n, lo);
    CopiesIsProduct(n, hi);
    MeanBetween(total, n as real, lo, hi);
  }

  lemma MeanBetween(total: real, n: real, lo: real, hi: real)
    requires n > 0.0 && n * lo <= total <= n * hi
    ensures lo <= total / n <= hi
  {
    var m := total / n;
    assert total == n * m;
    CancelFactor(n, lo, m);
    CancelFactor(n, m, hi);
  }

  lemma CancelFactor(n: real, a: real, b: real)
    requires n > 0.0 && n * a <= n * b
    ensures a <= b
  {
    assert n * (b - a) >= 0.0;
  }

  /** The camera target lies inside the bounding box of the vertices it averages. */
  lemma CentroidInBox(pts: seq<Point>)
    requires |pts| > 0
    ensures Centroid(pts).Some? && BoxContains(Scan(None, pts), Centroid(pts).value)
  {
    ScanIsTight(pts);
    CentroidEnclosed(pts, Scan(None, pts).value);
  }

  /** Any box around the vertices holds their centroid. */
  lemma CentroidEnclosed(pts: seq<Point>, b: Box)
    requires |pts| > 0 && Encloses(b, pts)
    ensures Centroid(pts).Some?
    ensures b.minX <= Centroid(pts).value.x <= b.maxX && b.minY <= Centroid(pts).value.y <= b.maxY
  {
    SumBounds(pts, b);
    MeansBetween(SumX(pts), SumY(pts), |pts|, b);
  }
}
