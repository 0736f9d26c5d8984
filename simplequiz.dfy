/** The two quizzes of the second globe: the quiz menu and the quiz inlined in the app. Both
    keep a count of right answers and a count of attempts, a current question with a
    first-try flag, a feedback line, and light the lines of a country by name. The menu
    counts an attempt per question asked; the inline quiz counts one per click. */
module SimpleQuiz {
  import opened Wrappers
  import opened Quiz

  type Color = int

  const White: Color := 0xffffff
  const Green: Color := 0x00ff00
  const Yellow: Color := 0xffff00

  /** A question: the country, the quiz type it was asked with, and the flag telling whether
      the first click on it is still to come. */
  datatype Prompt = Prompt(country: string, qtype: string, flag: string, capital: string, firstTryFlag: bool)

  /** The feedback line: empty, a bare "wrong", or a "wrong" naming the right country. */
  datatype Feedback = Silent | Wrong | WrongNaming(country: string)

  /** The state both quizzes read and write. `displayed` says whether the question shown
      (`quizQuestion`) is the current one (`quizRef.current`, the same object) or nothing;
      `colors` holds the colour of every line of every country in the line table. */
  datatype Board = Board(
    quizMode: bool,
    current: Option<Prompt>,
    displayed: bool,
    feedback: Feedback,
    correctCount: nat,
    totalCount: nat,
    colors: map<string, seq<Color>>)

  /** Before any quiz, with the line table built: every line white. */
  function Opening(lines: map<string, nat>): (b: Board)
    ensures b.current.None? && b.correctCount == 0 && b.totalCount == 0
    ensures b.colors.Keys == lines.Keys
    ensures forall name :: name in lines ==> b.colors[name] == seq(lines[name], _ => White)
  {
    Board(false, None, false, Silent, 0, 0, map name | name in lines :: seq(lines[name], _ => White))
  }

  /** `highlightCountry(name, color)`: nothing when the name has no lines, and otherwise
      every line of that country takes the colour. */
  function Highlighted(colors: map<string, seq<Color>>, name: string, color: Color): (r: map<string, seq<Color>>)
    ensures name !in colors ==> r == colors
    ensures name in colors ==>
              (&& r.Keys == colors.Keys
               && |r[name]| == |colors[name]|
               && (forall i :: 0 <= i < |r[name]| ==> r[name][i] == color)
               && (forall n :: n in colors && n != name ==> r[n] == colors[n]))
  {
    if name !in colors then colors else colors[name := seq(|colors[name]|, _ => color)]
  }

  /** The question for `names[pick]`, the random draw among the country names. */
  function PromptFor(names: seq<string>, meta: map<string, Meta>, quizType: string, pick: nat, firstTry: bool): Prompt
    requires pick < |names| && names[pick] in meta
  {
    Prompt(names[pick], quizType, meta[names[pick]].flag, meta[names[pick]].capital, firstTry)
  }

  /** The feedback for a wrong click: the right country is named unless the quiz asks for
      names. */
  function WrongFeedback(q: Prompt): (f: Feedback)
    ensures f == Wrong <==> q.qtype == "name"
    ensures f != Wrong ==> f == WrongNaming(q.country)
  {
    if q.qtype == "name" then Wrong else WrongNaming(q.country)
  }

  /** The colour a right click lights the country in: green on the first try, yellow after. */
  function RightColor(q: Prompt): Color {
    if q.firstTryFlag then Green else Yellow
  }

  /** `endQuiz()`: the question leaves the screen but stays current, and the colours stay. */
  function Ended(b: Board): Board {
    b.(quizMode := false, displayed := false, feedback := Silent)
  }

  // ---------------------------------------------------------------------------
  // The quiz menu

  /** `nextQuestion()` of the quiz menu: the new question counts as an attempt. */
  function MenuNext(b: Board, names: seq<string>, meta: map<string, Meta>, quizType: string, pick: nat): Board
    requires pick < |names| && names[pick] in meta
  {
    b.(totalCount := b.totalCount + 1, current := Some(PromptFor(names, meta, quizType, pick, true)),
       displayed := true, feedback := Silent)
  }

  /** `handleGlobeClick(clicked)` of the quiz menu; `pick` draws the next question. */
  function MenuClicked(b: Board, clicked: string, names: seq<string>, meta: map<string, Meta>, quizType: string, pick: nat): Board
    requires pick < |names| && names[pick] in meta
  {
    if b.current.None? then b
    else
      var q := b.current.value;
      if clicked == q.country then
        MenuNext(b.(correctCount := b.correctCount + 1, colors := Highlighted(b.colors, q.country, RightColor(q))),
                 names, meta, quizType, pick)
      else b.(current := Some(q.(firstTryFlag := false)), feedback := WrongFeedback(q))
  }

  /** `startQuiz()` of the quiz menu. */
  function MenuStarted(b: Board, names: seq<string>, meta: map<string, Meta>, quizType: string, pick: nat): Board
    requires pick < |names| && names[pick] in meta
  {
    MenuNext(b.(correctCount := 0, totalCount := 0, quizMode := true), names, meta, quizType, pick)
  }

  /** Before the first quiz both counts are 0; from then on a question is current and there
      are more attempts than right answers. */
  predicate MenuConsistent(b: Board) {
    && (b.current.None? ==> b.correctCount == 0 && b.totalCount == 0)
    && (b.current.Some? ==> b.correctCount < b.totalCount)
  }

  lemma MenuOpeningConsistent(lines: map<string, nat>)
    ensures MenuConsistent(Opening(lines))
  {
  }

  /** A new quiz starts at one attempt, no right answers and a fresh question. */
  lemma MenuStartCounts(b: Board, names: seq<string>, meta: map<string, Meta>, quizType: string, pick: nat)
    requires pick < |names| && names[pick] in meta
    ensures var n := MenuStarted(b, names, meta, quizType, pick);
            && n.totalCount == 1 && n.correctCount == 0 && n.quizMode && n.displayed
            && n.current == Some(Prompt(names[pick], quizType, meta[names[pick]].flag, meta[names[pick]].capital, true))
            && MenuConsistent(n)
  {
  }

  /** A right click counts one more right answer and asks the next question (one more
      attempt); a wrong one only clears the first-try flag and sets the feedback; without a
      question nothing happens. */
  lemma MenuClickCounts(b: Board, clicked: string, names: seq<string>, meta: map<string, Meta>, quizType: string, pick: nat)
    requires pick < |names| && names[pick] in meta
    ensures var n := MenuClicked(b, clicked, names, meta, quizType, pick);
            && (b.current.None? ==> n == b)
            && (b.current.Some? && clicked == b.current.value.country ==>
                  && n.correctCount == b.correctCount + 1 && n.totalCount == b.totalCount + 1
                  && n.current.value.firstTryFlag && n.feedback == Silent)
            && (b.current.Some? && clicked != b.current.value.country ==>
                  && n.correctCount == b.correctCount && n.totalCount == b.totalCount
                  && n.current == Some(b.current.value.(firstTryFlag := false))
                  && n.colors == b.colors)
  {
  }

  /** Asking the next question, as the Next button does, keeps the invariant: before any
      quiz it makes one attempt with no right answer, and later it adds an attempt. */
  lemma MenuNextKeeps(b: Board, names: seq<string>, meta: map<string, Meta>, quizType: string, pick: nat)
    requires pick < |names| && names[pick] in meta && MenuConsistent(b)
    ensures MenuConsistent(MenuNext(b, names, meta, quizType, pick))
  {
  }

  lemma MenuClickKeeps(b: Board, clicked: string, names: seq<string>, meta: map<string, Meta>, quizType: string, pick: nat)
    requires pick < |names| && names[pick] in meta && MenuConsistent(b)
    ensures MenuConsistent(MenuClicked(b, clicked, names, meta, quizType, pick))
  {
  }

  /** Ending the quiz leaves the question current: a later click on its country still counts
      as a right answer. */
  lemma MenuClickAfterEndCounts(b: Board, names: seq<string>, meta: map<string, Meta>, quizType: string, pick: nat)
    requires pick < |names| && names[pick] in meta && b.current.Some?
    ensures var n := MenuClicked(Ended(b), b.current.value.country, names, meta, quizType, pick);
            n.correctCount == b.correctCount + 1 && n.current.Some? && !n.quizMode
  {
  }

  /** The accuracy the menu shows is a percentage. */
  lemma MenuAccuracyShown(b: Board)
    requires MenuConsistent(b)
    ensures 0 <= Accuracy(b.correctCount, b.totalCount) <= 100
  {
    AccuracyIsPercentage(b.correctCount, b.totalCount);
  }

  // ---------------------------------------------------------------------------
  // The inline quiz

  /** `nextQuestion()` of the inline quiz as written: the question object has no
      `firstTryFlag`, which reads as false. */
  function InlineNextAsWritten(b: Board, names: seq<string>, meta: map<string, Meta>, quizType: string, pick: nat): Board
    requires pick < |names| && names[pick] in meta
  {
    b.(current := Some(PromptFor(names, meta, quizType, pick, false)), displayed := true, feedback := Silent)
  }

  /** `nextQuestion()` of the inline quiz with the flag set, as the quiz menu's does; the
      attempt is counted per click instead. */
  function InlineNext(b: Board, names: seq<string>, meta: map<string, Meta>, quizType: string, pick: nat): Board
    requires pick < |names| && names[pick] in meta
  {
    b.(current := Some(PromptFor(names, meta, quizType, pick, true)), displayed := true, feedback := Silent)
  }

  /** The quiz type the inline quiz's click handler asks with. The handler is registered
      once, when the globe is mounted, so the `nextQuestion()` it calls is the one of the
      first render, which reads the initial `quizType`. */
  const MountedQuizType := "flag"

  /** `handleGlobeClick(clicked)` of the inline quiz as written: every click on a question
      is an attempt, and a right one asks the next question, without the flag and of the
      type the handler was mounted with. */
  function InlineClicked(b: Board, clicked: string, names: seq<string>, meta: map<string, Meta>, pick: nat): Board
    requires pick < |names| && names[pick] in meta
  {
    if b.current.None? then b
    else
      var q := b.current.value;
      var counted := b.(totalCount := b.totalCount + 1);
      if clicked == q.country then
        InlineNextAsWritten(counted.(correctCount := b.correctCount + 1, colors := Highlighted(b.colors, q.country, RightColor(q))),
                            names, meta, MountedQuizType, pick)
      else counted.(current := Some(q.(firstTryFlag := false)), feedback := WrongFeedback(q))
  }

  /** `handleGlobeClick(clicked)` of the inline quiz as intended: the next question carries
      the flag and the quiz type selected at the time of the click. */
  function InlineClickedIntended(b: Board, clicked: string, names: seq<string>, meta: map<string, Meta>, quizType: string, pick: nat): Board
    requires pick < |names| && names[pick] in meta
  {
    if b.current.None? then b
    else
      var q := b.current.value;
      var counted := b.(totalCount := b.totalCount + 1);
      if clicked == q.country then
        InlineNext(counted.(correctCount := b.correctCount + 1, colors := Highlighted(b.colors, q.country, RightColor(q))),
                   names, meta, quizType, pick)
      else counted.(current := Some(q.(firstTryFlag := false)), feedback := WrongFeedback(q))
  }

  /** `startQuiz()` of the inline quiz, run from the current render with the selected quiz
      type. */
  function InlineStarted(b: Board, names: seq<string>, meta: map<string, Meta>, quizType: string, pick: nat): Board
    requires pick < |names| && names[pick] in meta
  {
    InlineNextAsWritten(b.(correctCount := 0, totalCount := 0, quizMode := true), names, meta, quizType, pick)
  }

  predicate InlineConsistent(b: Board) {
    b.correctCount <= b.totalCount
  }

  /** As written, no question of the inline quiz ever has its first-try flag set. */
  predicate InlineUnflagged(b: Board) {
    b.current.Some? ==> !b.current.value.firstTryFlag
  }

  /** Every click on a question counts one attempt, and a right one also one right answer. */
  lemma InlineClickCounts(b: Board, clicked: string, names: seq<string>, meta: map<string, Meta>, pick: nat)
    requires pick < |names| && names[pick] in meta
    ensures var n := InlineClicked(b, clicked, names, meta, pick);
            && (b.current.None? ==> n == b)
            && (b.current.Some? ==> n.totalCount == b.totalCount + 1)
            && (b.current.Some? && clicked == b.current.value.country ==> n.correctCount == b.correctCount + 1)
            && (b.current.Some? && clicked != b.current.value.country ==>
                  n.correctCount == b.correctCount && n.current == Some(b.current.value.(firstTryFlag := false)))
  {
  }

  lemma InlineKeeps(b: Board, clicked: string, names: seq<string>, meta: map<string, Meta>, quizType: string, pick: nat)
    requires pick < |names| && names[pick] in meta && InlineConsistent(b)
    ensures InlineConsistent(InlineClicked(b, clicked, names, meta, pick))
    ensures InlineConsistent(InlineStarted(b, names, meta, quizType, pick))
    ensures 0 <= Accuracy(b.correctCount, b.totalCount) <= 100
  {
    AccuracyIsPercentage(b.correctCount, b.totalCount);
  }

  /** The inline quiz starts unflagged, and clicks, skips, starts and ends keep it so; a skip
      also keeps right answers at most attempts. */
  lemma InlineStaysUnflagged(b: Board, clicked: string, names: seq<string>, meta: map<string, Meta>, quizType: string, pick: nat, lines: map<string, nat>)
    requires pick < |names| && names[pick] in meta && InlineUnflagged(b)
    ensures InlineUnflagged(Opening(lines))
    ensures InlineUnflagged(InlineNextAsWritten(b, names, meta, quizType, pick))
    ensures InlineConsistent(b) ==> InlineConsistent(InlineNextAsWritten(b, names, meta, quizType, pick))
    ensures InlineUnflagged(InlineClicked(b, clicked, names, meta, pick))
    ensures InlineUnflagged(InlineStarted(b, names, meta, quizType, pick))
    ensures InlineUnflagged(Ended(b))
  {
  }

  /** As written, a right click on the current question lights its country yellow, the
      colour meant for a right answer after a wrong one, on the first try as on any other. */
  lemma AsWrittenFirstTryYellow(b: Board, names: seq<string>, meta: map<string, Meta>, pick: nat)
    requires pick < |names| && names[pick] in meta && InlineUnflagged(b) && b.current.Some?
    requires b.current.value.country in b.colors && |b.colors[b.current.value.country]| > 0
    ensures var country := b.current.value.country;
            var n := InlineClicked(b, country, names, meta, pick);
            forall i :: 0 <= i < |n.colors[country]| ==> n.colors[country][i] == Yellow
  {
  }

  /** As written, the question a right click asks is a flag question, whatever type is
      selected. */
  lemma AsWrittenClickAsksFlag(b: Board, names: seq<string>, meta: map<string, Meta>, pick: nat)
    requires pick < |names| && names[pick] in meta && b.current.Some?
    ensures var n := InlineClicked(b, b.current.value.country, names, meta, pick);
            n.current.Some? && n.current.value.qtype == "flag" && n.current.value.country == names[pick]
  {
  }

  /** As intended, the question a right click asks has the selected type and the flag set. */
  lemma IntendedClickAsksSelected(b: Board, names: seq<string>, meta: map<string, Meta>, quizType: string, pick: nat)
    requires pick < |names| && names[pick] in meta && b.current.Some?
    ensures var n := InlineClickedIntended(b, b.current.value.country, names, meta, quizType, pick);
            && n.current.Some? && n.current.value.qtype == quizType && n.current.value.country == names[pick]
            && n.current.value.firstTryFlag
  {
  }

  /** With the flag set, the first click on a fresh question, when right, lights the
      country green, and a right click after a wrong one yellow. */
  lemma FirstTryGreen(b: Board, names: seq<string>, meta: map<string, Meta>, quizType: string, pick: nat, next: nat, wrong: string)
    requires pick < |names| && names[pick] in meta && next < |names| && names[next] in meta
    requires names[pick] in b.colors && |b.colors[names[pick]]| > 0 && wrong != names[pick]
    ensures var asked := InlineNext(b, names, meta, quizType, pick);
            var n := InlineClickedIntended(asked, names[pick], names, meta, quizType, next);
            n.colors[names[pick]][0] == Green
    ensures var asked := InlineNext(b, names, meta, quizType, pick);
            var missed := InlineClickedIntended(asked, wrong, names, meta, quizType, next);
            var n := InlineClickedIntended(missed, names[pick], names, meta, quizType, next);
            n.colors[names[pick]][0] == Yellow
  {
    var asked := InlineNext(b, names, meta, quizType, pick);
    var missed := InlineClickedIntended(asked, wrong, names, meta, quizType, next);
    assert missed.colors == b.colors;
    assert missed.current.value.country == names[pick];
  }

  // ---------------------------------------------------------------------------
  // The components

  /** The quiz menu component of the second globe. */
  class QuizPanel {
    /** The component's state hooks, together. */
    var board: Board

    function State(): Board
      reads this
    {
      board
    }

    ghost predicate Valid()
      reads this
    {
      MenuConsistent(State())
    }

    constructor (lines: map<string, nat>)
      ensures State() == Opening(lines)
      ensures Valid()
    {
      board := Board(false, None, false, Silent, 0, 0, map name | name in lines :: seq(lines[name], _ => White));
    }

    /** `nextQuestion()` with the quiz type selected when it runs. */
    method NextQuestion(quizType: string, names: seq<string>, meta: map<string, Meta>, pick: nat)
      requires pick < |names| && names[pick] in meta
      modifies this
      ensures State() == MenuNext(old(State()), names, meta, quizType, pick)
      ensures old(Valid()) ==> Valid()
    {
      ghost var b := board;
      if MenuConsistent(b) {
        MenuNextKeeps(b, names, meta, quizType, pick);
      }
      var country := names[pick];
      board := board.(totalCount := board.totalCount + 1);
      var question := Prompt(country, quizType, meta[country].flag, meta[country].capital, true);
      board := board.(current := Some(question), displayed := true, feedback := Silent);
    }

    /** `handleGlobeClick(clicked)`, called through the handle the current render exposes,
        so with the quiz type selected at the click. */
    method HandleGlobeClick(quizType: string, clicked: string, names: seq<string>, meta: map<string, Meta>, pick: nat)
      requires pick < |names| && names[pick] in meta
      modifies this
      ensures State() == MenuClicked(old(State()), clicked, names, meta, quizType, pick)
      ensures old(Valid()) ==> Valid()
    {
      ghost var b := board;
      if MenuConsistent(b) {
        MenuClickKeeps(b, clicked, names, meta, quizType, pick);
      }
      if board.current.None? {
        return;
      }
      var q := board.current.value;
      if clicked == q.country {
        board := board.(correctCount := board.correctCount + 1);
        HighlightCountry(q.country, if q.firstTryFlag then Green else Yellow);
        NextQuestion(quizType, names, meta, pick);
      } else {
        board := board.(current := Some(q.(firstTryFlag := false)),
                        feedback := if q.qtype == "name" then Wrong else WrongNaming(q.country));
      }
    }

    /** `highlightCountry(name, color)`: the `forEach` over the country's lines. */
    method HighlightCountry(name: string, color: Color)
      modifies this
      ensures State() == old(State()).(colors := Highlighted(old(State()).colors, name, color))
    {
      if name !in board.colors {
        return;
      }
      var shades := Recolored(board.colors[name], color);
      board := board.(colors := board.colors[name := shades]);
    }

    method StartQuiz(quizType: string, names: seq<string>, meta: map<string, Meta>, pick: nat)
      requires pick < |names| && names[pick] in meta
      modifies this
      ensures State() == MenuStarted(old(State()), names, meta, quizType, pick)
      ensures Valid()
    {
      board := board.(correctCount := 0, totalCount := 0, quizMode := true);
      NextQuestion(quizType, names, meta, pick);
    }

    method EndQuiz()
      modifies this
      ensures State() == Ended(old(State()))
      ensures old(Valid()) ==> Valid()
    {
      board := board.(quizMode := false, displayed := false, feedback := Silent);
    }
  }

  /** The quiz inlined in the app component of the second globe, as written: its questions
      carry no first-try flag, and its click handler is the one of the first render. */
  class InlineQuiz {
    /** The component's state hooks, together. */
    var board: Board

    function State(): Board
      reads this
    {
      board
    }

    ghost predicate Valid()
      reads this
    {
      InlineConsistent(State()) && InlineUnflagged(State())
    }

    constructor (lines: map<string, nat>)
      ensures State() == Opening(lines)
      ensures Valid()
    {
      board := Board(false, None, false, Silent, 0, 0, map name | name in lines :: seq(lines[name], _ => White));
    }

    /** `nextQuestion()` of the render it belongs to, with that render's quiz type; the
        question object it builds has no first-try flag. */
    method NextQuestion(quizType: string, names: seq<string>, meta: map<string, Meta>, pick: nat)
      requires pick < |names| && names[pick] in meta
      modifies this
      ensures State() == InlineNextAsWritten(old(State()), names, meta, quizType, pick)
      ensures old(Valid()) ==> Valid()
    {
      var country := names[pick];
      var question := Prompt(country, quizType, meta[country].flag, meta[country].capital, false);
      board := board.(current := Some(question), displayed := true, feedback := Silent);
    }

    /** `handleGlobeClick(clicked)` of the first render, the one the globe's click listener
        was registered with. */
    method HandleGlobeClick(clicked: string, names: seq<string>, meta: map<string, Meta>, pick: nat)
      requires pick < |names| && names[pick] in meta
      modifies this
      ensures State() == InlineClicked(old(State()), clicked, names, meta, pick)
      ensures old(Valid()) ==> Valid()
    {
      if board.current.None? {
        return;
      }
      var q := board.current.value;
      board := board.(totalCount := board.totalCount + 1);
      if clicked == q.country {
        board := board.(correctCount := board.correctCount + 1);
        HighlightCountry(q.country, if q.firstTryFlag then Green else Yellow);
        NextQuestion(MountedQuizType, names, meta, pick);
      } else {
        board := board.(current := Some(q.(firstTryFlag := false)),
                        feedback := if q.qtype == "name" then Wrong else WrongNaming(q.country));
      }
    }

    /** `highlightCountry(name, color)`: the `forEach` over the country's lines. */
    method HighlightCountry(name: string, color: Color)
      modifies this
      ensures State() == old(State()).(colors := Highlighted(old(State()).colors, name, color))
    {
      if name !in board.colors {
        return;
      }
      var shades := Recolored(board.colors[name], color);
      board := board.(colors := board.colors[name := shades]);
    }

    /** `startQuiz()` of the current render, with the selected quiz type. */
    method StartQuiz(quizType: string, names: seq<string>, meta: map<string, Meta>, pick: nat)
      requires pick < |names| && names[pick] in meta
      modifies this
      ensures State() == InlineStarted(old(State()), names, meta, quizType, pick)
      ensures Valid()
    {
      board := board.(correctCount := 0, totalCount := 0, quizMode := true);
      NextQuestion(quizType, names, meta, pick);
    }

    method EndQuiz()
      modifies this
      ensures State() == Ended(old(State()))
      ensures old(Valid()) ==> Valid()
    {
      board := board.(quizMode := false, displayed := false, feedback := Silent);
    }
  }

  /** `lines.forEach((line) => line.material.color.setHex(color))`. */
  method Recolored(shades: seq<Color>, color: Color) returns (r: seq<Color>)
    ensures r == seq(|shades|, _ => color)
  {
    r := [];
    var i := 0;
    while i < |shades|
      invariant 0 <= i <= |shades|
      invariant r == seq(i, _ => color)
    {
      r := r + [color];
      i := i + 1;
    }
  }
}
