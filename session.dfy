/** The quiz menu's running state: the problem set and the pointer into it, the current
    question, the score, attempt, first-try and streak counters, the answer history, and the
    calls into the highlight overlay that clicks and the end of a quiz make. */
module Session {
  import opened Wrappers
  import opened Seqs
  import opened Geometry
  import opened Features
  import opened Quiz
  import opened Overlay
  import opened Borders

  /** An entry of `questionHistory`: the answered question and the points it earned. */
  datatype Record = Record(question: Question, points: int)

  /** The state the quiz logic reads and writes, as sequential fields. */
  datatype Progress = Progress(
    quizMode: bool,
    question: Option<Question>,
    problemSet: Option<seq<Question>>,
    problemIndex: nat,
    questionNumber: int,
    questionStart: int,
    score: int,
    totalAttempts: nat,
    correctFirstTry: nat,
    streak: nat,
    maxStreak: nat,
    history: seq<Record>,
    showSummary: bool)

  /** The state before any quiz. */
  const Initial: Progress := Progress(false, None, None, 0, 0, 0, 0, 0, 0, 0, 0, [], false)

  // ---------------------------------------------------------------------------
  // The transitions

  /** `endQuiz()` (the overlay is cleared too). */
  function Ended(p: Progress): Progress {
    p.(quizMode := false, question := None, showSummary := true)
  }

  /** `startNewQuestion()` ends the quiz: the problem set is used up. */
  predicate EndsQuiz(p: Progress) {
    p.problemSet.Some? && p.problemIndex >= |p.problemSet.value|
  }

  /** `startNewQuestion()` at time `now`: nothing without a problem set, the end of the quiz
      past its last question, and otherwise the next question, with the pointer moved on by
      one. */
  function NewQuestion(p: Progress, now: int): Progress {
    if p.problemSet.None? then p
    else if EndsQuiz(p) then Ended(p)
    else p.(question := Some(p.problemSet.value[p.problemIndex]), questionStart := now,
            problemIndex := p.problemIndex + 1)
  }

  /** `startQuiz()`: everything is reset, the new problem set is stored with the pointer at
      0, and the first question is asked. */
  function Started(p: Progress, problems: seq<Question>, now: int): Progress {
    NewQuestion(p.(quizMode := true, score := 0, totalAttempts := 0, correctFirstTry := 0,
                   streak := 0, maxStreak := 0, questionNumber := 1, history := [],
                   showSummary := false, problemSet := Some(problems), problemIndex := 0), now)
  }

  /** `nextQuestion()`: the skipped question counts as an attempt. */
  function Passed(p: Progress, now: int): Progress {
    NewQuestion(p.(totalAttempts := p.totalAttempts + 1, questionNumber := p.questionNumber + 1), now)
  }

  /** The current question once a click at `now` on the right country has been counted. */
  function Answered(q: Question, p: Progress, now: int): Question {
    q.(attempts := q.attempts + 1, timeSpent := (now - p.questionStart) / 1000)
  }

  /** The counters a right answer sets before the country is lit: the points at the streak
      before the click, the first-try count, the streak and the best streak. */
  function Scored(p: Progress, now: int): Progress
    requires p.question.Some?
  {
    var q := Answered(p.question.value, p, now);
    p.(question := Some(q), score := p.score + CalculatePoints(q, p.streak),
       correctFirstTry := p.correctFirstTry + (if q.firstTry then 1 else 0),
       streak := p.streak + 1,
       maxStreak := if p.maxStreak < p.streak + 1 then p.streak + 1 else p.maxStreak)
  }

  /** The state once the right country is also lit, before the next question is asked: the
      answer joins the history and the question number moves on. */
  function Rewarded(p: Progress, now: int): Progress
    requires p.question.Some?
  {
    var q := Answered(p.question.value, p, now);
    Scored(p, now).(history := p.history + [Record(q, CalculatePoints(q, p.streak))],
                    questionNumber := p.questionNumber + 1)
  }

  /** The wrong-answer updates made before the clicked country is lit red. */
  function Missed(p: Progress): Progress
    requires p.question.Some?
  {
    var q := p.question.value;
    p.(question := Some(q.(attempts := q.attempts + 1, firstTry := false)), streak := 0)
  }

  /** `handleGlobeClick(clicked)` at time `now` run to its end: the right or the wrong
      branch, then the attempt is counted. */
  function Completed(p: Progress, clicked: string, now: int): Progress {
    if p.question.None? then p
    else if clicked == p.question.value.country then
      var next := NewQuestion(Rewarded(p, now), now);
      next.(totalAttempts := next.totalAttempts + 1)
    else Missed(p).(totalAttempts := p.totalAttempts + 1)
  }

  /** `handleGlobeClick(clicked)` at time `now` over the overlay `s`. When lighting the
      country throws (a negative count) nothing catches it: the updates made before the
      highlight stay, and the history, the question number, the next question and the
      attempt count that come after it never happen. */
  function Clicked(p: Progress, s: Scene, clicked: string, now: int): Progress {
    if p.question.Some? && HighlightOutcome(s, clicked) == RangeError then
      if clicked == p.question.value.country then Scored(p, now) else Missed(p)
    else Completed(p, clicked, now)
  }

  /** What the click does to the overlay: without a question the clicked country lights up
      green; a right answer lights the country green (and the end of the quiz then clears
      everything, unless lighting threw); a wrong one lights the clicked country red. */
  function ClickedOverlay(p: Progress, s: Scene, clicked: string, now: int): Scene {
    if p.question.None? then Highlighted(s, clicked, BorderLineColorCorrect)
    else if clicked == p.question.value.country then
      var lit := Highlighted(s, clicked, BorderLineColorCorrect);
      if HighlightOutcome(s, clicked) != RangeError && EndsQuiz(Rewarded(p, now)) then Cleared(lit) else lit
    else Highlighted(s, clicked, BorderLineColorWrong)
  }

  // ---------------------------------------------------------------------------
  // The invariant

  /** The counters the summary shows stay consistent: no more first-try answers than attempts,
      a streak never above the best streak, the pointer within the problem set, and a current
      question only with a problem set, being the one the pointer last passed. */
  predicate Consistent(p: Progress) {
    && p.correctFirstTry <= p.totalAttempts
    && p.streak <= p.maxStreak
    && (p.problemSet.Some? ==> 0 <= p.problemIndex <= |p.problemSet.value|)
    && (p.question.Some? ==>
          && p.problemSet.Some? && 1 <= p.problemIndex <= |p.problemSet.value|
          && p.question.value.country == p.problemSet.value[p.problemIndex - 1].country)
  }

  lemma InitialConsistent()
    ensures Consistent(Initial)
  {
  }

  /** `startNewQuestion()` asks `problemSet[problemIndex]` and moves the pointer on by exactly
      one, or ends the quiz when the set is used up. */
  lemma NewQuestionAdvances(p: Progress, now: int)
    requires Consistent(p) && p.problemSet.Some?
    ensures var n := NewQuestion(p, now);
            && Consistent(n)
            && (p.problemIndex < |p.problemSet.value| ==>
                  n.question == Some(p.problemSet.value[p.problemIndex]) && n.problemIndex == p.problemIndex + 1)
            && (p.problemIndex >= |p.problemSet.value| ==>
                  n.question.None? && !n.quizMode && n.showSummary && n.problemIndex == p.problemIndex)
            && n.score == p.score && n.totalAttempts == p.totalAttempts && n.correctFirstTry == p.correctFirstTry
  {
  }

  lemma NewQuestionKeeps(p: Progress, now: int)
    requires Consistent(p)
    ensures Consistent(NewQuestion(p, now))
  {
  }

  /** A new quiz asks its first question with every counter at zero, or ends at once when
      the problem set is empty. */
  lemma StartedCounters(p: Progress, problems: seq<Question>, now: int)
    ensures var n := Started(p, problems, now);
            && Consistent(n)
            && n.score == 0 && n.totalAttempts == 0 && n.correctFirstTry == 0
            && n.streak == 0 && n.maxStreak == 0 && n.history == []
            && (|problems| > 0 ==> n.question == Some(problems[0]) && n.problemIndex == 1 && n.quizMode)
            && (|problems| == 0 ==> n.question.None? && !n.quizMode && n.showSummary)
  {
  }

  lemma PassedKeeps(p: Progress, now: int)
    requires Consistent(p)
    ensures Consistent(Passed(p, now))
    ensures Passed(p, now).totalAttempts == p.totalAttempts + 1
  {
  }

  /** The counters a click with a current question updates. A right click earns
      `calculatePoints` at the streak before the click, counts a first-try answer, and
      extends the streak and the best streak; a wrong one loses the first try and the
      streak. Unless lighting the country throws, the click also counts an attempt and a
      right one is recorded in the history; when it throws, the question, its pointer and its
      number stay where they were. */
  lemma ClickCounters(p: Progress, s: Scene, clicked: string, now: int)
    requires p.question.Some?
    ensures var n := Clicked(p, s, clicked, now);
            var q := p.question.value;
            var throws := HighlightOutcome(s, clicked) == RangeError;
            && n.totalAttempts == p.totalAttempts + (if throws then 0 else 1)
            && (clicked != q.country ==>
                  && n.streak == 0 && n.score == p.score && n.correctFirstTry == p.correctFirstTry
                  && n.question == Some(q.(attempts := q.attempts + 1, firstTry := false))
                  && n.problemIndex == p.problemIndex && n.history == p.history)
            && (clicked == q.country ==>
                  var points := CalculatePoints(Answered(q, p, now), p.streak);
                  && n.score == p.score + points
                  && n.correctFirstTry == p.correctFirstTry + (if q.firstTry then 1 else 0)
                  && n.streak == p.streak + 1
                  && n.maxStreak == (if p.maxStreak < p.streak + 1 then p.streak + 1 else p.maxStreak)
                  && (throws ==> n.history == p.history && n.question == Some(Answered(q, p, now))
                                 && n.problemIndex == p.problemIndex && n.questionNumber == p.questionNumber)
                  && (!throws ==> n.history == p.history + [Record(Answered(q, p, now), points)]))
  {
    var q := p.question.value;
    if clicked != q.country {
      assert Clicked(p, s, clicked, now) == (if HighlightOutcome(s, clicked) == RangeError then Missed(p)
                                             else Missed(p).(totalAttempts := p.totalAttempts + 1));
    } else if HighlightOutcome(s, clicked) == RangeError {
      assert Clicked(p, s, clicked, now) == Scored(p, now);
    } else {
      var r := Rewarded(p, now);
      assert Clicked(p, s, clicked, now) == NewQuestion(r, now).(totalAttempts := NewQuestion(r, now).totalAttempts + 1);
      assert NewQuestion(r, now).score == r.score && NewQuestion(r, now).streak == r.streak;
    }
  }

  /** A click run to its end keeps the counters consistent. */
  lemma CompletedKeeps(p: Progress, clicked: string, now: int)
    requires Consistent(p)
    ensures Consistent(Completed(p, clicked, now))
  {
    if p.question.Some? && clicked == p.question.value.country {
      var r := Rewarded(p, now);
      var counted := r.(totalAttempts := r.totalAttempts + 1);
      NewQuestionKeeps(counted, now);
      assert Completed(p, clicked, now) == NewQuestion(counted, now);
    }
  }

  /** A click keeps the counters consistent when no country's entry makes highlighting
      throw. */
  lemma ClickKeeps(p: Progress, s: Scene, clicked: string, now: int)
    requires Consistent(p) && NeverThrows(s)
    ensures Consistent(Clicked(p, s, clicked, now))
  {
    assert HighlightOutcome(s, clicked) != RangeError;
    CompletedKeeps(p, clicked, now);
  }

  /** The accuracy shown during and after a quiz is a percentage while the counters are
      consistent. */
  lemma AccuracyShown(p: Progress)
    requires Consistent(p)
    ensures 0 <= Accuracy(p.correctFirstTry, p.totalAttempts) <= 100
  {
    AccuracyIsPercentage(p.correctFirstTry, p.totalAttempts);
  }

  /** The overlay once the borders of the one country of `EmptyRingsCancelSquare` are
      built: its entry has count -2. */
  function ThrowingScene(proj: Projection): Scene {
    Attached(Scene(None, None, None, map[], 0), LayoutOf(proj, [Named("X", PolygonGeom(SquareWithEmptyRings()))]))
  }

  /** As written, the accuracy can exceed 100: in a one-question quiz on that country, each
      right click throws while lighting it, after the first-try answer is counted but before
      the attempt is; two clicks and a skip show 2 first-try answers in 1 attempt. */
  lemma AccuracyAbove100(proj: Projection, q: Question, now: int)
    requires q.country == "X" && q.firstTry
    ensures var s := ThrowingScene(proj);
            var p := Started(Initial, [q], now);
            var once := Clicked(p, s, "X", now);
            var n := Passed(Clicked(once, ClickedOverlay(p, s, "X", now), "X", now), now);
            && Consistent(p) && ClickedOverlay(p, s, "X", now) == s
            && n.correctFirstTry == 2 && n.totalAttempts == 1 && !Consistent(n)
            && Accuracy(n.correctFirstTry, n.totalAttempts) == 200
  {
    EmptyRingsCancelSquare();
    var s := ThrowingScene(proj);
    assert HighlightOutcome(s, "X") == RangeError;
  }

  /** Without a question a click only lights the clicked country green. */
  lemma ClickWithoutQuestion(p: Progress, s: Scene, clicked: string, now: int)
    requires p.question.None?
    ensures Clicked(p, s, clicked, now) == p
    ensures ClickedOverlay(p, s, clicked, now) == Highlighted(s, clicked, BorderLineColorCorrect)
  {
  }

  // ---------------------------------------------------------------------------
  // The hint

  /** What `findLocation()` does for a question: whether it marks the question as hinted,
      where it points the camera (None: the camera stays put), and whether it throws midway
      (after marking the question) on a polygon without an outer ring. */
  datatype Hint = Hint(marked: bool, camera: Option<Point>, threw: bool)

  const NoHint: Hint := Hint(false, None, false)

  /** The hint for question `q` over the loaded index items (None: not loaded yet). */
  function HintOf(q: Question, features: Option<seq<Item>>): Hint {
    if features.None? then NoHint
    else
      var found := FindItem(features.value, HintName(q.country));
      if found.None? || found.value.country.geometry.None? then NoHint
      else
        match OuterRings(found.value.country.geometry.value)
        case None => Hint(true, None, true)
        case Some(rings) => Hint(true, Centroid(Concat(rings)), false)
  }

  /** The state after `findLocation()`: the current question is marked when the hint is. */
  function Located(p: Progress, features: Option<seq<Item>>): Progress {
    if p.question.None? then p
    else if HintOf(p.question.value, features).marked then
      p.(question := Some(p.question.value.(usedHint := true)))
    else p
  }

  /** A hint is marked exactly when the country's item is found with a geometry; asking
      for it changes nothing but the mark. */
  lemma HintMarked(p: Progress, features: Option<seq<Item>>)
    requires p.question.Some?
    ensures var found := if features.None? then None
                         else FindItem(features.value, HintName(p.question.value.country));
            HintOf(p.question.value, features).marked <==> found.Some? && found.value.country.geometry.Some?
    ensures Located(p, features).question.value.usedHint
            <==> p.question.value.usedHint || HintOf(p.question.value, features).marked
    ensures Located(p, features).(question := p.question) == p
  {
  }

  /** A hinted question earns no points, whenever it is answered. */
  lemma HintForfeitsPoints(p: Progress, s: Scene, features: Option<seq<Item>>, now: int)
    requires p.question.Some? && HintOf(p.question.value, features).marked
    ensures var l := Located(p, features);
            Clicked(l, s, l.question.value.country, now).score == p.score
  {
    var l := Located(p, features);
    ClickCounters(l, s, l.question.value.country, now);
  }

  /** The outer rings of the members of a multipolygon hold only ring-0 vertices of its
      members. */
  lemma {:induction false} MembersOuterRingsHas(ps: MultiPolygon, j: nat)
    requires MembersOuterRings(ps).Some? && j < |Concat(MembersOuterRings(ps).value)|
    ensures exists m, i :: 0 <= m < |ps| && |ps[m]| > 0 && 0 <= i < |ps[m][0]|
                           && Concat(MembersOuterRings(ps).value)[j] == ps[m][0][i]
  {
    var init := ps[..|ps| - 1];
    var last := ps[|ps| - 1];
    var rs := MembersOuterRings(init).value;
    assert MembersOuterRings(ps).value == rs + [last[0]];
    assert (rs + [last[0]])[..|rs|] == rs;
    var all := Concat(rs + [last[0]]);
    assert all == Concat(rs) + last[0];
    if j < |Concat(rs)| {
      MembersOuterRingsHas(init, j);
      var m, i :| 0 <= m < |init| && |init[m]| > 0 && 0 <= i < |init[m][0]|
                  && Concat(rs)[j] == init[m][0][i];
      assert init[m] == ps[m];
    } else {
      assert all[j] == ps[|ps| - 1][0][j - |Concat(rs)|];
    }
  }

  /** Every vertex the hint averages is a vertex the geometry's index box was computed from. */
  lemma OuterVertexIndexed(g: Geom, j: nat)
    requires OuterRings(g).Some? && j < |Concat(OuterRings(g).value)|
    ensures Concat(OuterRings(g).value)[j] in GeomVertices(Some(g))
  {
    match g
    case PolygonGeom(c) =>
      var one := [c[0]];
      assert one[..0] == [];
      assert Concat(one) == c[0];
      VerticesHas([c], 0, 0, j);
    case MultiPolygonGeom(ps) =>
      MembersOuterRingsHas(ps, j);
      var m, i :| 0 <= m < |ps| && |ps[m]| > 0 && 0 <= i < |ps[m][0]|
                  && Concat(MembersOuterRings(ps).value)[j] == ps[m][0][i];
      VerticesHas(ps, m, 0, i);
  }

  /** The camera lands inside the index box of the country the hint found. */
  lemma HintCameraInItemBox(f: Feature, q: Question, items: seq<Item>)
    requires f.geometry.Some? && FindItem(items, HintName(q.country)) == Some(ItemOf(f))
    ensures var h := HintOf(q, Some(items));
            && h.marked
            && (h.camera.Some? ==> BoxContains(ItemOf(f).box, h.camera.value))
  {
    var g := f.geometry.value;
    var h := HintOf(q, Some(items));
    if h.camera.Some? {
      var pts := Concat(OuterRings(g).value);
      assert h.camera == Centroid(pts);
      var vs := GeomVertices(f.geometry);
      assert pts[0] in vs by { OuterVertexIndexed(g, 0); }
      assert !g.OtherGeom? && |vs| > 0;
      ItemBoxIsTight(f);
      var b := ItemOf(f).box.value;
      forall j | 0 <= j < |pts|
        ensures b.minX <= pts[j].x <= b.maxX && b.minY <= pts[j].y <= b.maxY
      {
        OuterVertexIndexed(g, j);
      }
      CentroidEnclosed(pts, b);
    }
  }

  // ---------------------------------------------------------------------------
  // The component

  /** The quiz menu: its React state and `quizRef` fields, held as one record whose fields
      are the state hooks, and the overlay it lights countries on. */
  class QuizMenu {
    var progress: Progress
    const overlay: Highlighter

    function State(): Progress
      reads this
    {
      progress
    }

    ghost predicate Valid()
      reads this, overlay
    {
      Consistent(progress) && overlay.Valid()
    }

    constructor (overlay: Highlighter)
      requires overlay.Valid()
      ensures State() == Initial && this.overlay == overlay
      ensures Valid()
    {
      progress := Initial;
      this.overlay := overlay;
    }

    method EndQuiz()
      modifies this, overlay
      ensures State() == Ended(old(State()))
      ensures overlay.State() == Cleared(old(overlay.State()))
      ensures old(Valid()) ==> Valid()
      ensures old(overlay.Valid()) ==> overlay.Valid()
    {
      progress := progress.(quizMode := false, question := None);
      overlay.ClearAllCountryColors();
      progress := progress.(showSummary := true);
    }

    method StartNewQuestion(now: int)
      modifies this, overlay
      ensures State() == NewQuestion(old(State()), now)
      ensures overlay.State() == if EndsQuiz(old(State())) then Cleared(old(overlay.State()))
                                 else old(overlay.State())
      ensures old(Valid()) ==> Valid()
      ensures old(overlay.Valid()) ==> overlay.Valid()
    {
      if progress.problemSet.None? {
        return;
      }
      var problems, index := progress.problemSet.value, progress.problemIndex;
      if index >= |problems| {
        EndQuiz();
        return;
      }
      progress := progress.(question := Some(problems[index]), questionStart := now);
      progress := progress.(problemIndex := index + 1);
    }

    /** `startQuiz()` with the settings and the random draws of `generateProblemSet`. */
    method StartQuiz(names: seq<string>, meta: map<string, Meta>, ignoreIslands: bool,
                     quizType: QuizType, quizLength: QuizLength, order: seq<nat>, picks: seq<nat>,
                     now: int)
      requires forall k :: 0 <= k < |names| ==> names[k] in meta
      requires IsPermutation(order, |Eligible(names, meta, ignoreIslands)|)
      requires |Eligible(names, meta, ignoreIslands)| <= |picks|
      requires forall k :: 0 <= k < |picks| ==> picks[k] < 3
      modifies this, overlay
      ensures var problems := GenerateProblemSet(names, meta, ignoreIslands, quizType, quizLength, order, picks, now);
              State() == Started(old(State()), problems, now)
      ensures overlay.State() == Cleared(old(overlay.State()))
      ensures old(Valid()) ==> Valid()
    {
      ghost var before := overlay.State();
      progress := progress.(quizMode := true, score := 0, totalAttempts := 0, correctFirstTry := 0,
                            streak := 0, maxStreak := 0, questionNumber := 1, history := [],
                            showSummary := false);
      overlay.ClearAllCountryColors();
      var problems := GenerateProblemSet(names, meta, ignoreIslands, quizType, quizLength, order, picks, now);
      progress := progress.(problemSet := Some(problems), problemIndex := 0);
      StartNewQuestion(now);
      ClearedTwice(before);
      StartedCounters(old(State()), problems, now);
    }

    method NextQuestion(now: int)
      modifies this, overlay
      ensures State() == Passed(old(State()), now)
      ensures overlay.State() == if EndsQuiz(old(State())) then Cleared(old(overlay.State()))
                                 else old(overlay.State())
      ensures old(Valid()) ==> Valid()
    {
      ghost var p := progress;
      if Consistent(p) {
        PassedKeeps(p, now);
      }
      progress := progress.(totalAttempts := progress.totalAttempts + 1, questionNumber := progress.questionNumber + 1);
      StartNewQuestion(now);
    }

    /** `handleGlobeClick(clicked)`. The counters stay consistent when the overlay holds no
        entry that makes highlighting throw. */
    method HandleGlobeClick(clicked: string, now: int) returns (outcome: Outcome)
      modifies this, overlay
      ensures State() == Clicked(old(State()), old(overlay.State()), clicked, now)
      ensures overlay.State() == ClickedOverlay(old(State()), old(overlay.State()), clicked, now)
      ensures old(Valid()) && NeverThrows(old(overlay.State())) ==> Valid()
      ensures old(overlay.Valid()) ==> overlay.Valid()
    {
      if progress.question.None? {
        outcome := overlay.HighlightCountry(clicked, BorderLineColorCorrect);
      } else {
        outcome := Answer(clicked, now);
      }
    }

    /** `handleGlobeClick(clicked)` with a current question: the right or the wrong branch,
        then the attempt is counted. A highlight that throws ends the handler where it is. */
    method Answer(clicked: string, now: int) returns (outcome: Outcome)
      requires progress.question.Some?
      modifies this, overlay
      ensures State() == Clicked(old(State()), old(overlay.State()), clicked, now)
      ensures overlay.State() == ClickedOverlay(old(State()), old(overlay.State()), clicked, now)
      ensures Consistent(old(State())) && NeverThrows(old(overlay.State())) ==> Consistent(State())
      ensures old(overlay.Valid()) ==> overlay.Valid()
    {
      ghost var p := progress;
      ghost var s := overlay.State();
      if clicked == progress.question.value.country {
        outcome := Reward(now);
      } else {
        outcome := Penalize(clicked);
      }
      if outcome != RangeError {
        progress := progress.(totalAttempts := progress.totalAttempts + 1);
      }
      assert State() == Clicked(p, s, clicked, now);
      if Consistent(p) && NeverThrows(s) {
        ClickKeeps(p, s, clicked, now);
      }
    }

    /** The right-answer branch of `handleGlobeClick()`: the score and counters, the green
        highlight, then the history, the question number and `startNewQuestion()`, which a
        highlight that throws leaves out. */
    method Reward(now: int) returns (outcome: Outcome)
      requires progress.question.Some?
      modifies this, overlay
      ensures outcome == HighlightOutcome(old(overlay.State()), old(State()).question.value.country)
      ensures State() == if outcome == RangeError then Scored(old(State()), now)
                         else NewQuestion(Rewarded(old(State()), now), now)
      ensures var lit := Highlighted(old(overlay.State()), old(State()).question.value.country, BorderLineColorCorrect);
              overlay.State() == if outcome != RangeError && EndsQuiz(Rewarded(old(State()), now)) then Cleared(lit) else lit
      ensures old(overlay.Valid()) ==> overlay.Valid()
    {
      var q := Answered(progress.question.value, progress, now);
      var points := CalculatePoints(q, progress.streak);
      Score(now);
      outcome := overlay.HighlightCountry(q.country, BorderLineColorCorrect);
      if outcome == RangeError {
        return;
      }
      progress := progress.(history := progress.history + [Record(q, points)]);
      progress := progress.(questionNumber := progress.questionNumber + 1);
      StartNewQuestion(now);
    }

    /** The score and counter updates of a right answer. */
    method Score(now: int)
      requires progress.question.Some?
      modifies this
      ensures State() == Scored(old(State()), now)
    {
      var q := Answered(progress.question.value, progress, now);
      var points := CalculatePoints(q, progress.streak);
      progress := progress.(question := Some(q), score := progress.score + points);
      if q.firstTry {
        progress := progress.(correctFirstTry := progress.correctFirstTry + 1);
      }
      var best := if progress.maxStreak < progress.streak + 1 then progress.streak + 1 else progress.maxStreak;
      progress := progress.(streak := progress.streak + 1, maxStreak := best);
    }

    /** The wrong-answer branch of `handleGlobeClick()`, before the attempt is counted. */
    method Penalize(clicked: string) returns (outcome: Outcome)
      requires progress.question.Some?
      modifies this, overlay
      ensures outcome == HighlightOutcome(old(overlay.State()), clicked)
      ensures State() == Missed(old(State()))
      ensures overlay.State() == Highlighted(old(overlay.State()), clicked, BorderLineColorWrong)
      ensures old(overlay.Valid()) ==> overlay.Valid()
    {
      var q := progress.question.value;
      q := q.(attempts := q.attempts + 1);
      progress := progress.(question := Some(q.(firstTry := false)), streak := 0);
      outcome := overlay.HighlightCountry(clicked, BorderLineColorWrong);
    }

    /** `findLocation()`: the hint and the camera target it sends to the globe. `features` is
        what `stateRef.current.features` holds when it runs: `Some([])` until the index is
        built, the index items after. */
    method FindLocation(features: Option<seq<Item>>) returns (camera: Option<Point>, threw: bool)
      modifies this
      ensures State() == Located(old(State()), features)
      ensures old(State()).question.Some? ==>
                (camera == HintOf(old(State()).question.value, features).camera
                 && threw == HintOf(old(State()).question.value, features).threw)
      ensures old(State()).question.None? ==> camera.None? && !threw
      ensures old(Valid()) ==> Valid()
    {
      camera, threw := None, false;
      if progress.question.None? || features.None? {
        return;
      }
      var q := progress.question.value;
      var found := FindItem(features.value, HintName(q.country));
      if found.None? || found.value.country.geometry.None? {
        return;
      }
      progress := progress.(question := Some(q.(usedHint := true)));
      var sx, sy, n;
      sx, sy, n, threw := OuterSums(found.value.country.geometry.value);
      if threw {
        return;
      }
      if n > 0 {
        camera := Some(Point(sx / (n as real), sy / (n as real)));
      }
    }
  }

  /** Clearing twice is clearing once: `startQuiz()` clears again when the new set is empty. */
  lemma ClearedTwice(s: Scene)
    ensures Cleared(Cleared(s)) == Cleared(s)
  {
  }

  /** Once one member lacks an outer ring, every longer prefix lacks one too. */
  lemma {:induction false} MembersOuterRingsNone(ps: MultiPolygon, k: nat)
    requires k <= |ps| && MembersOuterRings(ps[..k]).None?
    ensures MembersOuterRings(ps).None?
    decreases |ps| - k
  {
    if k < |ps| {
      assert ps[..k + 1][..k] == ps[..k];
      MembersOuterRingsNone(ps, k + 1);
    } else {
      assert ps[..k] == ps;
    }
  }

  /** The vertex sums over the outer rings of a geometry, or `threw` where a polygon has no
      outer ring. */
  method OuterSums(g: Geom) returns (sx: real, sy: real, n: nat, threw: bool)
    ensures threw <==> OuterRings(g).None?
    ensures !threw ==> var pts := Concat(OuterRings(g).value);
                       sx == SumX(pts) && sy == SumY(pts) && n == |pts|
  {
    sx, sy, n, threw := 0.0, 0.0, 0, false;
    match g {
      case PolygonGeom(c) =>
        if |c| == 0 {
          threw := true;
          return;
        }
        sx, sy, n := AddVertices(c[0], sx, sy, n);
        assert [c[0]][..0] == [];
        assert Concat([c[0]]) == c[0];
      case MultiPolygonGeom(ps) =>
        sx, sy, n, threw := MembersSums(ps);
      case OtherGeom =>
        assert Concat<Point>([]) == [];
    }
  }

  /** The sums over ring 0 of each member, stopping where a member has none. */
  method MembersSums(ps: MultiPolygon) returns (sx: real, sy: real, n: nat, threw: bool)
    ensures threw <==> MembersOuterRings(ps).None?
    ensures !threw ==> var pts := Concat(MembersOuterRings(ps).value);
                       sx == SumX(pts) && sy == SumY(pts) && n == |pts|
  {
    sx, sy, n, threw := 0.0, 0.0, 0, false;
    var i := 0;
    while i < |ps|
      invariant 0 <= i <= |ps|
      invariant MembersOuterRings(ps[..i]).Some?
      invariant var pts := Concat(MembersOuterRings(ps[..i]).value);
                sx == SumX(pts) && sy == SumY(pts) && n == |pts|
    {
      assert ps[..i + 1][..i] == ps[..i];
      if |ps[i]| == 0 {
        threw := true;
        assert MembersOuterRings(ps[..i + 1]).None?;
        MembersOuterRingsNone(ps, i + 1);
        return;
      }
      ghost var rs := MembersOuterRings(ps[..i]).value;
      SumsAppend(Concat(rs), ps[i][0]);
      sx, sy, n := AddVertices(ps[i][0], sx, sy, n);
      assert (rs + [ps[i][0]])[..|rs|] == rs;
      i := i + 1;
    }
    assert ps[..i] == ps;
  }

  /** The `forEach` over one ring adding up longitudes, latitudes and the point count. */
  method AddVertices(ring: Ring, sx0: real, sy0: real, n0: nat) returns (sx: real, sy: real, n: nat)
    ensures sx == sx0 + SumX(ring) && sy == sy0 + SumY(ring) && n == n0 + |ring|
  {
    sx, sy, n := sx0, sy0, n0;
    var j := 0;
    while j < |ring|
      invariant 0 <= j <= |ring|
      invariant sx == sx0 + SumX(ring[..j]) && sy == sy0 + SumY(ring[..j]) && n == n0 + j
    {
      assert ring[..j + 1][..j] == ring[..j];
      sx, sy, n := sx + ring[j].x, sy + ring[j].y, n + 1;
      j := j + 1;
    }
    assert ring[..j] == ring;
  }
}
