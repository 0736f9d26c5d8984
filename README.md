# Country-flag quiz globe: hit testing and quiz bookkeeping

This project models in Dafny the logic behind the two globes of the country-flag quiz. It
covers the main app under `src/` and the earlier globe under `wikipedia-globe/`. The
modelled logic turns a pointer position on the globe into a country:

- a longitude correction after the inverse projection;
- a rectangle-tree search over per-country bounding boxes;
- an even-odd point-in-polygon test with holes and multipolygons.

Around that pipeline, the model covers:

- the border builders that lay out every country's edges, with the table from country
  names to their lines;
- the highlight overlay that copies one country's slice of the merged border buffer;
- the quiz state of the two quiz menus and the inline quiz.

Coordinates are exact reals. The `1e-12` guard in the crossing test is an exact real
constant. The JavaScript semantics of a zero denominator are modelled: the quotient is
+Infinity, -Infinity or NaN.

The modules follow the program:

| module | file | models |
|---|---|---|
| `Geometry` | geometry.dfy | `pointInRing`, `pointInPolygon`, `pointInMultiPolygon` |
| `BBox` | bbox.dfy | `computeBBox` and its `processRing` |
| `Features` | features.dfy | name resolution, index items, the `tree.search` contract, `hitCountry` |
| `Longitude` | longitude.dfy | the ±360 correction of the pointer handlers |
| `Borders` | borders.dfy | the merged `segments`/`colors` buffers and the `{start, count}` table of `src/App.jsx` |
| `Overlay` | overlay.dfy | `highlightCountry`, `unhighlightCountry`, `clearAllCountryColors` of `src/QuizMenu.jsx` |
| `Quiz` | quiz.dfy | `calculatePoints`, `accuracy`, `generateProblemSet`, the hint centroid |
| `Session` | session.dfy | the quiz menu of `src/QuizMenu.jsx` as a class |
| `RingLines` | ringlines.dfy | the one-line-per-ring builder of `wikipedia-globe/src/App.jsx` |
| `SimpleQuiz` | simplequiz.dfy | the quiz menu of `wikipedia-globe/src/QuizMenu.jsx` and the quiz inlined in its app |
| `Wrappers`, `Seqs` | wrappers.dfy, seqs.dfy | `Option`, sequence concatenation |

**Imperative parts.** The source updates these step by step, so the model uses methods with
loops, and each loop's result is tied to a specification function:

- each point-in-polygon function;
- the bounding-box scan;
- both border builders;
- the index builder;
- the resolver;
- the slice copy, an `array` filled in place.

**Stateful components.** The components that keep state are classes:

- `Session.QuizMenu`: its React state hooks and `quizRef` fields live in one `progress`
  record, which each method rewrites field by field. It holds a reference to a
  `Overlay.Highlighter`, which it lights countries on.
- `SimpleQuiz.QuizPanel` and `SimpleQuiz.InlineQuiz`: their state lives in one `board`
  record. The selected quiz type is React state outside the quiz logic, so it is an
  argument to the operations that read it. The quiz menu's handle is rebuilt every render
  and reads the current selection. The inline quiz's click listener is registered once, at
  mount, so its clicks read the initial 'flag' (`SimpleQuiz.MountedQuizType`).

Every method states its new state as a function of the old one. The invariants are
predicates with preservation lemmas for the operations the buttons and clicks call:
`Session.Consistent`, `SimpleQuiz.MenuConsistent`, `SimpleQuiz.InlineConsistent`,
`SimpleQuiz.InlineUnflagged` and `Overlay.WellFormed`. `Session.Consistent` survives a
click only when no highlight can throw (below). The index items a hint looks up are read
at the call, like the selected quiz type.

**The second globe's copies.** Several functions in `wikipedia-globe/src/App.jsx` are copied
unchanged from `src/App.jsx`, so one member of this model stands for both copies:

- lines 18-72 of the second globe match lines 26-80 of the first: the point-in-polygon
  functions and `computeBBox`;
- the index builder at 329-348 matches 334-353;
- `hitCountry` at 417-438 matches 447-468;
- the longitude correction at 391-393 and 503-505 matches 404-406 and 532-534.

**Where the code behaves differently from what one might expect.**

- A feature with geometry but null properties makes `fetchBorders` in `src/App.jsx` throw
  at `f.properties.ADMIN`. The builder in `wikipedia-globe/src/App.jsx` throws at
  `geom.coordinates` on a feature without geometry. Either way the whole build stops, so
  the model has an error outcome for both (`Borders.BuildBorders`,
  `RingLines.BuildCountryLines`).
- The wikipedia-globe builder keys its line table by `properties.name || 'Unknown'` alone.
  It does not use the ADMIN → NAME → name chain.
- A ring is pushed as its `length - 1` open edges. An empty ring moves `vertexOffset` back
  by 2 without pushing anything.
- Highlighting a country whose entry has a negative count throws in `src/QuizMenu.jsx`,
  and nothing catches it inside `handleGlobeClick`. The click keeps the updates made before
  the highlight and skips the rest (`Session.Clicked`).

## Model

| member | source | states |
|---|---|---|
| Geometry.Prev | src/App.jsx:29 | the loop partner `j` of edge `i` is the previous vertex, with the wrap-around edge for `i == 0`: `(j + 1) % n == i` |
| Geometry.PointInRing | src/App.jsx:26-39 | the toggled flag equals the parity of the number of crossing edges, wrap-around edge included; an empty ring gives false |
| Geometry.PointInPolygon | src/App.jsx:41-49 | true iff the polygon has rings, the point is in ring 0 and in none of the later rings |
| Geometry.PointInMultiPolygon | src/App.jsx:51-56 | true iff some member polygon contains the point; false when there are no members |
| Geometry.CrossingWitness | src/App.jsx:34-36 | a positive crossing count has a crossing edge among the edges counted |
| Geometry.InRingWithinLatitudes | src/App.jsx:34-35 | a point inside a ring has a ring vertex strictly above it and one at or below it |
| Geometry.OneSidedRingExcludes | src/App.jsx:34-35 | a ring entirely above, or entirely at or below, the point has no crossing edge |
| Geometry.InPolygonWithinLatitudes | src/App.jsx:41-49 | a point inside a polygon lies within the latitude range of its exterior ring |
| Geometry.HoledSquareContainment | src/App.jsx:41-49 | the 10 x 10 square with a 2 x 2 hole around (5, 5) excludes (5, 5) and contains (1, 1) and (9, 9) |
| Geometry.TwoIslandsContainment | src/App.jsx:51-56 | two disjoint unit squares contain (0.5, 0.5) and (5.5, 5.5) but not (3, 3) |
| BBox.ProcessRing | src/App.jsx:65-72 | the four compare-and-update steps over a ring are the scan of the ring from the current extremes |
| BBox.ScanAppend | src/App.jsx:74-78 | scanning a concatenation is scanning its two parts in turn |
| BBox.ScanIsTight | src/App.jsx:60-71 | from the infinite sentinels the scan stays at the sentinels iff there is no vertex, and otherwise gives a box that encloses every vertex and whose four bounds are each attained by a vertex |
| BBox.ComputeBBox | src/App.jsx:59-80 | the nested loops return the sentinels iff there are no vertices, and otherwise the tightest box around every vertex of every ring of every polygon |
| Features.NameOf | src/App.jsx:284-288 | ADMIN if truthy, else NAME if truthy, else `name` if truthy, else 'Unknown'; never empty |
| Features.IndexName | src/App.jsx:335-336 | null properties give 'Unknown', otherwise the same chain |
| Features.BuildIndexItems | src/App.jsx:334-353 | one item per feature, in order: resolved name, geometry, and the box of `[coords]` for a Polygon, of `coords` for a MultiPolygon, of (0, 0, 0, 0) otherwise |
| Features.HitCountry | src/App.jsx:447-468 | under the search contract: the first candidate in search order whose geometry contains the point, a country of the index whose box holds the point; null iff no candidate, equivalently no indexed country whose box holds the point, contains it |
| Features.ItemBoxIsTight | src/App.jsx:337-348 | an item's box is the tightest box around its geometry's vertices, or the empty sentinels when there are none |
| Features.ExteriorVertexInBox | src/App.jsx:339-343 | every exterior-ring vertex lies within the item box's latitude range |
| Features.ContainedWithinBoxLatitudes | src/App.jsx:449-459 | a country whose geometry contains the point has a box whose latitude range spans the point, so pruning by box never loses it in latitude |
| Features.MissingGeometryIndexedAtOrigin | src/App.jsx:344-348 | a feature without geometry gets the box (0, 0, 0, 0), so every search at (0, 0) returns it, and it never contains the point |
| Longitude.WrapLon | src/App.jsx:404-406 | the result moves the input by at most one turn, lies in [-180, 180] for inputs in [-540, 540], and keeps inputs already in [-180, 180] |
| Longitude.PreWrapLon | src/App.jsx:404 | `atan2` in degrees minus 180 lies in [-360, 0], inside the range where the correction lands in [-180, 180] |
| Longitude.SeamContinuity | src/App.jsx:532-534 | two pre-wrap longitudes keep their difference up to a whole turn, and keep it exactly when both lie on the same side of -180 |
| Longitude.PointerLongitude | src/App.jsx:404-406 | the corrected longitude of a hit is the `atan2` angle turned by half a turn: in [-180, 180], the angle plus 180 when negative and minus 180 otherwise, and 0 or 360 away from the uncorrected value |
| Borders.AddRing | src/App.jsx:262-277 | appends both projected endpoints of each open edge (i, i + 1) and one default-colour triple per vertex pushed |
| Borders.AddRings | src/App.jsx:296-299 | appends each ring's edges in order and advances the offset by `(length - 1) * 2` per ring |
| Borders.AddPolygons | src/App.jsx:301-306 | the ring loop of each member polygon in turn, keeping `colors` all default and as long as `segments` |
| Borders.AddGeometry | src/App.jsx:290-307 | a Polygon's rings, every ring of every member of a MultiPolygon, nothing for another type |
| Borders.AddFeature | src/App.jsx:281-310 | a feature without geometry changes nothing; otherwise its rings are appended and its name gets `{start, count}` with `start` the offset before it and `count` the offset it adds |
| Borders.LayoutStep | src/App.jsx:280-311 | the layout after one more feature is that feature added to the layout before it |
| Borders.BuildBorders | src/App.jsx:279-311 | aborts iff some feature has geometry but null properties; otherwise returns the buffers, the range table and the final offset of `LayoutOf`, the feature-by-feature layout |
| Borders.RingLength | src/App.jsx:263-277 | a ring of L >= 1 points pushes 6 (L - 1) floats, three per unit of its offset step; an empty ring pushes nothing but steps -2 |
| Borders.RingsLength | src/App.jsx:296-306 | a ring sequence pushes three floats per unit of offset plus six per empty ring |
| Borders.SegmentsLength | src/App.jsx:279-311 | the whole buffer holds `3 * vertexOffset` floats plus six per empty ring |
| Borders.LayoutLength | src/App.jsx:317-318 | without empty rings `segments.length == 3 * vertexOffset`, and `colors` is as long as `segments` |
| Borders.RangesContiguous | src/App.jsx:293-310 | each feature's range starts where the previous one ended; a feature without geometry takes up nothing |
| Borders.LinesSnoc | src/App.jsx:310 | a feature writing a name sets its entry, and the entries of other names are left as they were |
| Borders.RangePrefix | src/App.jsx:293 | a feature's range depends only on the features before it |
| Borders.LinesHas | src/App.jsx:309-310 | a name is in the table iff some feature with geometry resolves to it, and then some feature is the last to do so |
| Borders.LinesEntry | src/App.jsx:310 | the entry of a name is the range of the last feature resolving to it |
| Borders.PrefixOf | src/App.jsx:270-271 | the buffer of a prefix of the features is a prefix of the whole buffer |
| Borders.SliceExact | src/App.jsx:293-310 | without empty rings every feature's range lies inside the buffer and covers exactly the floats its rings pushed |
| Borders.LinesSliceExact | src/App.jsx:279-311 | without empty rings each table entry is a slice of the buffer that holds exactly the segments of the last country of that name |
| Borders.EmptyRingQuirk | src/App.jsx:298 | a Polygon with one empty ring pushes nothing, gets count -2, and leaves the offset at -2 |
| Borders.EmptyRingsCancelSquare | src/App.jsx:293-310 | an unclosed four-vertex square exterior followed by four empty rings leaves its country the entry {0, -2}, while the point-in-polygon test still finds (0.5, 0.5) inside it, since empty rings cross nothing |
| Borders.TwoCountriesLayout | src/App.jsx:279-311 | a 4-point square then a two-island country: ranges {0, 6} and {6, 12}, final offset 18, 54 floats |
| Borders.DuplicateNameOverwrites | src/App.jsx:310 | the same two countries under one name leave only the second entry |
| Overlay.CopySlice | src/QuizMenu.jsx:335-341 | the copied array has `3 * count` elements |
| Overlay.CopyRange | src/QuizMenu.jsx:334-341 | the loop fills a fresh typed array whose element 3 k + c is component c of vertex `start + k`, NaN outside the buffer |
| Overlay.CopyInRange | src/QuizMenu.jsx:337-341 | a range inside the buffer is copied float for float |
| Overlay.CopyPastEnd | src/QuizMenu.jsx:337-341 | every vertex beyond the buffer's end copies as NaN |
| Overlay.RemoveChild | src/QuizMenu.jsx:370 | `hg.remove` drops one occurrence of a present child (the multiset loses exactly it) and leaves the group alone otherwise |
| Overlay.HighlightKeeps | src/QuizMenu.jsx:355-362 | highlighting keeps mesh identities distinct and handed out, and keeps the map pointing into the group |
| Overlay.UnhighlightKeeps | src/QuizMenu.jsx:364-372 | unhighlighting keeps the same invariant |
| Overlay.ClearKeeps | src/QuizMenu.jsx:310-323 | clearing keeps the same invariant |
| Overlay.AttachKeeps | src/App.jsx:322-329 | storing the group, the table and the buffer keeps the invariant |
| Overlay.HighlightShowsCountry | src/QuizMenu.jsx:325-362 | on a built layout without empty rings, highlighting a name in the table adds one mesh of that colour to the group and records it under the name, and its positions are exactly the segments of the last country of that name |
| Overlay.UnhighlightRemovesOnlyName | src/QuizMenu.jsx:364-372 | only the name leaves the map, the other names keep their meshes, and exactly its mesh leaves the group |
| Overlay.HighlightThenUnhighlight | src/QuizMenu.jsx:325-372 | highlighting a name that has no mesh and then unhighlighting it restores the scene, except the identity counter |
| Overlay.RehighlightLeaksMesh | src/QuizMenu.jsx:357-362 | highlighting a name twice and unhighlighting it leaves the first mesh in the group, reachable by no name, until a clear |
| Overlay.EmptyRingHighlightThrows | src/QuizMenu.jsx:335 | the count -2 entry of an empty ring makes `new Float32Array(count * 3)` throw, and the scene is unchanged |
| Overlay.BuiltNeverThrows | src/QuizMenu.jsx:325-335 | on the table and buffer of a build where no feature aborts and no ring is empty, no name makes highlighting throw |
| Overlay.Highlighter.constructor | src/App.jsx:322-329 | before the borders are built there is no table, buffer, group or mesh |
| Overlay.Highlighter.Attach | src/App.jsx:322-329 | the scene becomes `Attached`: the table, the buffer and a new empty group; the invariant holds from there |
| Overlay.Highlighter.HighlightCountry | src/QuizMenu.jsx:325-363 | the scene becomes `Highlighted` and the outcome is `HighlightOutcome`: returns early without table entry, buffer or group, throws for a negative count, otherwise appends a fresh mesh with the copied slice and records it under the name, keeping the invariant |
| Overlay.Highlighter.UnhighlightCountry | src/QuizMenu.jsx:364-372 | the scene becomes `Unhighlighted`: without a group or a mesh under the name nothing happens; otherwise that mesh leaves the group and the name leaves the map |
| Overlay.Highlighter.ClearAllCountryColors | src/QuizMenu.jsx:310-323 | the scene becomes `Cleared`: the children removed last to first and the map reset; without a group it returns before touching the map |
| Quiz.CalculatePoints | src/QuizMenu.jsx:231-247 | 0 iff a hint was used; otherwise between 10 and 23 |
| Quiz.PointsBonuses | src/QuizMenu.jsx:237-244 | the first try is worth exactly 5, a sub-10-second answer exactly 3, and the streak bonus is the streak capped at 5 and only when positive |
| Quiz.Accuracy | src/QuizMenu.jsx:51-54 | 0 with no attempts; otherwise the integer nearest to 100 c / t, halves rounding up |
| Quiz.AccuracyIsPercentage | src/QuizMenu.jsx:51-54 | with no more first-try answers than attempts the accuracy is in [0, 100], and 100 when every attempt was a first-try answer |
| Quiz.Mainland | src/QuizMenu.jsx:68-70 | the island filter keeps exactly the names whose record is not an island, and repeats none when the names are distinct |
| Quiz.Shuffled | src/QuizMenu.jsx:73 | the shuffle as a given permutation: the i-th name is `pool[order[i]]`, and distinct names stay distinct |
| Quiz.Questions | src/QuizMenu.jsx:83-100 | one question per country in order, with its flag and capital, `firstTry` set, no attempts, no time spent, numbered `now + i`, and a concrete type (the setting's unless mixed) |
| Quiz.GenerateProblemSet | src/QuizMenu.jsx:64-101 | the set has one question per eligible name for 'all', otherwise the smaller of the setting and that number; only names from `countryMeta`, and no islands when they are filtered, each with its flag and capital; distinct countries when the names are distinct; fresh counters; and a concrete type |
| Quiz.PermutationCovers | src/QuizMenu.jsx:73 | a permutation of 0 .. n - 1 reaches every index |
| Quiz.AllAsksEveryName | src/QuizMenu.jsx:76-83 | an 'all' quiz asks about every eligible name |
| Quiz.HintName | src/QuizMenu.jsx:257-262 | the Minor Outlying Islands are looked up as the United States; every other name as itself |
| Quiz.FindItem | src/QuizMenu.jsx:264-266 | `find` returns the first item of that name, or nothing iff no item has it |
| Quiz.SumsAppend | src/QuizMenu.jsx:285-292 | the running coordinate sums add up ring after ring |
| Quiz.CentroidEnclosed | src/QuizMenu.jsx:295-297 | the averaged point lies in every box enclosing the averaged vertices |
| Quiz.CentroidInBox | src/QuizMenu.jsx:295-297 | the averaged point lies in the scanned bounding box of those vertices |
| Session.InitialConsistent | src/QuizMenu.jsx:31-37 | the initial counters satisfy the quiz invariant |
| Session.NewQuestionAdvances | src/QuizMenu.jsx:104-125 | with a problem set, asks `problemSet[problemIndex]` and moves the pointer on by exactly one, or ends the quiz when the set is used up, leaving the score and counters alone |
| Session.NewQuestionKeeps | src/QuizMenu.jsx:104-125 | `startNewQuestion()` keeps the invariant, the pointer never passing the set's end |
| Session.StartedCounters | src/QuizMenu.jsx:375-393 | a new quiz has every counter at zero and an empty history, and asks question 0, or ends at once for an empty set |
| Session.PassedKeeps | src/QuizMenu.jsx:395-402 | skipping counts one attempt and keeps the invariant |
| Session.ClickCounters | src/QuizMenu.jsx:163-228 | a wrong click clears the first try and the streak; a right one adds `calculatePoints` at the old streak, counts a first-try answer and extends the streak and best streak; unless lighting the country throws, the click counts an attempt and a right one is recorded in the history, and when it throws the attempt is not counted and a right answer's question, pointer and number stay |
| Session.ClickKeeps | src/QuizMenu.jsx:163-228 | when no entry of the overlay makes highlighting throw, a click keeps `correctFirstTry <= totalAttempts`, `streak <= maxStreak` and the pointer invariant |
| Session.CompletedKeeps | src/QuizMenu.jsx:163-228 | a click that runs to its end, as `Completed` defines it, keeps the same invariant |
| Session.AccuracyAbove100 | src/QuizMenu.jsx:171-227 | on the overlay of a country with an unclosed four-vertex square and four empty rings, two right clicks on a one-question first-try quiz and a skip give 2 first-try answers in 1 attempt, an accuracy of 200 and a broken invariant, the overlay unchanged |
| Session.AccuracyShown | src/QuizMenu.jsx:51-54 | while the invariant holds, the accuracy shown is a percentage |
| Session.ClickWithoutQuestion | src/QuizMenu.jsx:164-167 | without a question a click changes no counter and only lights the clicked country green |
| Session.HintMarked | src/QuizMenu.jsx:249-269 | the question is marked as hinted iff its country's item is found with a geometry, and nothing else changes |
| Session.HintForfeitsPoints | src/QuizMenu.jsx:233 | a hinted question earns no points when answered |
| Session.OuterVertexIndexed | src/QuizMenu.jsx:278-292 | every vertex the hint averages is one the country's index box was computed from |
| Session.HintCameraInItemBox | src/QuizMenu.jsx:271-302 | the hint is marked, and any camera target lies inside the index box of the country found |
| Session.ClearedTwice | src/QuizMenu.jsx:386 | clearing twice is clearing once |
| Session.OuterSums | src/QuizMenu.jsx:273-293 | the sums and point count over ring 0 of a Polygon or of each member of a MultiPolygon; it throws iff some polygon has no ring 0 |
| Session.MembersSums | src/QuizMenu.jsx:285-292 | the same over the members of a MultiPolygon, stopping at the first member without a ring |
| Session.AddVertices | src/QuizMenu.jsx:280-284 | the `forEach` adds the ring's longitudes, latitudes and point count |
| Session.QuizMenu.constructor | src/QuizMenu.jsx:24-48 | all counters zero, no quiz, no question, no problem set |
| Session.QuizMenu.EndQuiz | src/QuizMenu.jsx:404-418 | the state becomes `Ended` (quiz mode off, no current question, summary shown) and the overlay `Cleared` |
| Session.QuizMenu.StartNewQuestion | src/QuizMenu.jsx:104-125 | the state becomes `NewQuestion` of the old one, the overlay is cleared exactly when it ends the quiz, and the invariant is kept |
| Session.QuizMenu.StartQuiz | src/QuizMenu.jsx:375-393 | the state becomes `Started` with the `GenerateProblemSet` set: counters reset, pointer at 0, its first question asked; the overlay is cleared |
| Session.QuizMenu.NextQuestion | src/QuizMenu.jsx:395-402 | the state becomes `Passed`: the skipped question counts as an attempt, then `startNewQuestion()` |
| Session.QuizMenu.HandleGlobeClick | src/QuizMenu.jsx:163-228 | the state becomes `Clicked` of the old state and overlay, and the overlay `ClickedOverlay` (green for a right answer or with no question, red for a wrong one); the quiz invariant is kept when no entry makes highlighting throw, the overlay's always |
| Session.QuizMenu.Answer | src/QuizMenu.jsx:169-227 | `Clicked` with a question: the right or wrong branch, stopping where a highlight throws, otherwise followed by the attempt count; `Consistent` is kept when nothing can throw |
| Session.QuizMenu.Reward | src/QuizMenu.jsx:173-207 | the right-answer branch: `Scored`, then the green highlight, whose outcome it returns; unless that threw, the history record and question number of `Rewarded` and then `NewQuestion`, which clears the overlay when it ends the quiz |
| Session.QuizMenu.Score | src/QuizMenu.jsx:172-187 | the state becomes `Scored`: `timeSpent`, points, first-try count, streak and best streak of a right answer |
| Session.QuizMenu.Penalize | src/QuizMenu.jsx:171-220 | the state becomes `Missed`: one more attempt on the question, first try and streak lost; the clicked country lit red, and the highlight's outcome returned |
| Session.QuizMenu.FindLocation | src/QuizMenu.jsx:249-307 | the state becomes `Located` over the index items the shared state holds at the call (none found before the index is built): the question is marked when its item is found with geometry; returns the centroid of the outer-ring vertices, or that it threw on a polygon without rings |
| RingLines.LineKey | wikipedia-globe/src/App.jsx:322 | `properties.name` if truthy, else 'Unknown' |
| RingLines.AddRing | wikipedia-globe/src/App.jsx:301-312 | the line through the projected vertices of the ring, in order |
| RingLines.AddRings | wikipedia-globe/src/App.jsx:315 | appends one line per ring, in order |
| RingLines.GeometryLines | wikipedia-globe/src/App.jsx:314-320 | one line per ring of a Polygon or of every member of a MultiPolygon, none for another type |
| RingLines.BuildCountryLines | wikipedia-globe/src/App.jsx:295-325 | the group and the table of `Run`, the feature-by-feature build, with no table once a feature aborts |
| RingLines.AbortStays | wikipedia-globe/src/App.jsx:296-298 | after an abort the later features change nothing |
| RingLines.AbortsIff | wikipedia-globe/src/App.jsx:296-322 | the table is stored iff every feature has a geometry and properties |
| RingLines.GroupHasEveryRing | wikipedia-globe/src/App.jsx:310-311 | without an abort the borders group holds one line per ring of every feature, in order |
| RingLines.AbortKeepsDrawnLines | wikipedia-globe/src/App.jsx:309-311 | at the first abort the group keeps the lines of every ring up to and including the aborting feature's |
| RingLines.TableKeys | wikipedia-globe/src/App.jsx:322-323 | a name has an entry iff some feature is keyed by it |
| RingLines.TableLast | wikipedia-globe/src/App.jsx:323 | the entry holds the lines of the last feature keyed by the name |
| RingLines.TableEntries | wikipedia-globe/src/App.jsx:295-324 | a name has an entry iff some feature is keyed by it, and then the entry holds one line per ring of the last such feature |
| RingLines.ExampleKeyDiffers | wikipedia-globe/src/App.jsx:322-331 | properties with ADMIN "France" and name "French Republic" are indexed as France but drawn as French Republic |
| SimpleQuiz.Highlighted | wikipedia-globe/src/QuizMenu.jsx:94-102 | no change for a name without lines; otherwise every line of that country takes the colour and the others keep theirs |
| SimpleQuiz.WrongFeedback | wikipedia-globe/src/QuizMenu.jsx:77-81 | the wrong-answer feedback omits the right country iff the type is 'name' |
| SimpleQuiz.MenuOpeningConsistent | wikipedia-globe/src/QuizMenu.jsx:24-25 | both counters start at 0 |
| SimpleQuiz.MenuStartCounts | wikipedia-globe/src/QuizMenu.jsx:104-110 | after `startQuiz()` one attempt, no right answers, quiz mode on, and a fresh question with its first-try flag set |
| SimpleQuiz.MenuClickCounts | wikipedia-globe/src/QuizMenu.jsx:58-83 | no question: nothing; right: one more right answer and, through `nextQuestion()`, one more attempt and a fresh question; wrong: the flag cleared, the counters and colours unchanged |
| SimpleQuiz.MenuNextKeeps | wikipedia-globe/src/QuizMenu.jsx:30-55 | asking the next question directly, as the Next button does, keeps the menu invariant |
| SimpleQuiz.MenuClickKeeps | wikipedia-globe/src/QuizMenu.jsx:58-83 | once a quiz has started there are more attempts than right answers |
| SimpleQuiz.MenuClickAfterEndCounts | wikipedia-globe/src/QuizMenu.jsx:111-116 | `endQuiz()` leaves the question current, so a later click on its country still counts as right |
| SimpleQuiz.MenuAccuracyShown | wikipedia-globe/src/QuizMenu.jsx:26-27 | the accuracy shown is a percentage |
| SimpleQuiz.InlineClickCounts | wikipedia-globe/src/App.jsx:144-169 | every click on a question counts an attempt, a right one also a right answer, a wrong one clears the flag |
| SimpleQuiz.InlineKeeps | wikipedia-globe/src/App.jsx:121-176 | right answers never exceed attempts, and the accuracy is a percentage |
| SimpleQuiz.InlineStaysUnflagged | wikipedia-globe/src/App.jsx:121-182 | no question of the inline quiz has its first-try flag: before any quiz, and after every click, skip, start and end; a skip also keeps right answers at most attempts |
| SimpleQuiz.AsWrittenFirstTryYellow | wikipedia-globe/src/App.jsx:121-158 | as written, a right click on any question of the inline quiz, the first click included, lights every line of the country yellow |
| SimpleQuiz.AsWrittenClickAsksFlag | wikipedia-globe/src/App.jsx:492-539 | as written, the question a right click asks in the inline quiz is a flag question for the drawn country, whatever type is selected |
| SimpleQuiz.IntendedClickAsksSelected | wikipedia-globe/src/QuizMenu.jsx:41-49 | as intended, it has the selected type and its first-try flag set |
| SimpleQuiz.FirstTryGreen | wikipedia-globe/src/App.jsx:150-162 | with the flag set, as `InlineClickedIntended` does, a first-try right click lights the country green and a right click after a wrong one yellow |
| SimpleQuiz.Recolored | wikipedia-globe/src/QuizMenu.jsx:98-101 | every line of the country gets the colour |
| SimpleQuiz.QuizPanel.constructor | wikipedia-globe/src/QuizMenu.jsx:9-27 | no quiz, no question, both counters 0, every line white |
| SimpleQuiz.QuizPanel.NextQuestion | wikipedia-globe/src/QuizMenu.jsx:30-55 | the board becomes `MenuNext`: one more attempt, a question of the passed quiz type for the drawn country with the flag set, and the feedback cleared; the menu invariant is kept |
| SimpleQuiz.QuizPanel.HandleGlobeClick | wikipedia-globe/src/QuizMenu.jsx:58-83 | the board becomes `MenuClicked` with the quiz type selected at the click, keeping the menu invariant |
| SimpleQuiz.QuizPanel.HighlightCountry | wikipedia-globe/src/QuizMenu.jsx:94-102 | the colours become `Highlighted`: the lines of the country take the colour, or nothing happens without lines |
| SimpleQuiz.QuizPanel.StartQuiz | wikipedia-globe/src/QuizMenu.jsx:104-110 | the board becomes `MenuStarted` with the selected quiz type: counters reset, quiz mode on, a first question asked; the invariant holds |
| SimpleQuiz.QuizPanel.EndQuiz | wikipedia-globe/src/QuizMenu.jsx:111-116 | the board becomes `Ended`: quiz mode off, question hidden, feedback cleared; the current question and the counters stay |
| SimpleQuiz.InlineQuiz.constructor | wikipedia-globe/src/App.jsx:104-116 | no quiz, no question, both counters 0, every line white |
| SimpleQuiz.InlineQuiz.NextQuestion | wikipedia-globe/src/App.jsx:121-142 | the board becomes `InlineNextAsWritten`: a question of the passed quiz type for the drawn country, without the flag, and the feedback cleared, without counting an attempt; right answers stay at most attempts and no question gets the flag |
| SimpleQuiz.InlineQuiz.HandleGlobeClick | wikipedia-globe/src/App.jsx:144-169 | the board becomes `InlineClicked`, the handler of the first render asking its next question with the initial 'flag' type; right answers stay at most attempts and no question gets the flag |
| SimpleQuiz.InlineQuiz.HighlightCountry | wikipedia-globe/src/App.jsx:192-200 | the colours become `Highlighted`: the lines of the country take the colour, or nothing happens without lines |
| SimpleQuiz.InlineQuiz.StartQuiz | wikipedia-globe/src/App.jsx:170-176 | the board becomes `InlineStarted` with the selected quiz type: counters reset, quiz mode on, a first question asked without the flag |
| SimpleQuiz.InlineQuiz.EndQuiz | wikipedia-globe/src/App.jsx:177-182 | the board becomes `Ended`: quiz mode off, question hidden, feedback cleared |

## Left out

- The projection `lonLatToVec3` and the `acos`/`atan2` inverse are floating-point
  trigonometry. The projection is a function parameter (`Borders.Projection`), and the
  longitude correction takes the `atan2` angle in degrees as its input.
- IEEE-754 doubles. Coordinates and sums are exact reals, so rounding, overflow to
  Infinity and NaN inputs are not modelled. The zero-denominator case of the crossing test
  is the exception: it is modelled.
- The storage of `Float32Array` and `Float32BufferAttribute`. The copied positions are the
  buffer's reals, without rounding to single precision.
- Three.js objects, the renderer, materials, `dispose()` calls, OrbitControls, raycasting
  and the camera animation `moveCameraToCountry`. These are library plumbing. Only the
  meshes' identity, positions and colour are kept.
- The internals of the RBush rectangle tree. It is a foreign library, so only `search` is
  modelled, by its contract (`Features.IsSearchResult`): the items whose box contains the
  point, in unspecified order.
- Querying before the tree exists. `tree.search` on an undefined tree would throw, and the
  model always passes a built index.
- React machinery (`useState` batching, `useEffect`, `useImperativeHandle`, JSX and CSS).
  State updates are sequential record updates.
- `Date.now()`, `setInterval`/`setTimeout` and `Math.random()` are inputs:
  - `now` is one timestamp per operation, so `generateProblemSet` numbers its questions
    `now + i` with one `startTime`, where the source reads the clock per question;
  - the shuffle is a given permutation `order`, about which no uniformity is claimed;
  - mixed-quiz type draws are `picks`;
  - the wikipedia-globe drawn country is `pick`.
  
  The elapsed-time counter `timeElapsed` and the feedback timers are left out.
- `handleTimeout`. Nothing calls it.
- The feedback strings and the `feedbackType`/`showFeedback` flags of `src/QuizMenu.jsx`.
  Only the wikipedia-globe quizzes' choice of feedback (bare or naming the country) is
  kept.
- Aliasing of `quizRef.current` with the problem-set entry. The source mutates that entry's
  `attempts`, `firstTry`, `timeSpent` and `usedHint` in place. The model updates only the
  current question. The entries before `problemIndex` are never read again.
- The `result` field of the history records.
- Keys inherited from `Object.prototype` in lookups such as `countryLines[name]`. Names are
  plain map keys.
- `Object.keys(countryMeta)` is given as the name list `names`. An empty `countryMeta`,
  where the wikipedia-globe `nextQuestion` would throw reading `countryMeta[undefined]`,
  is excluded by `pick < |names|`.
- Session.ClickKeeps: the invariant is proved only for overlays where no entry makes
  highlighting throw (`Overlay.NeverThrows`), because a throwing right click counts a
  first-try answer without an attempt (`Session.AccuracyAbove100`).
- Session.AccuracyShown: the accuracy is a percentage only while the invariant holds, which
  the throwing click above can break.
- Quiz.Accuracy: the rounding is of the exact rational 100 c / t. The source rounds the
  double `(c / t) * 100`, which can fall just below a half: (23, 40) shows 57 where the
  model gives 58.
- The absent `firstTryFlag` of the inline quiz's questions as written. It reads as
  `undefined`, falsy, and is modelled as `false` in `SimpleQuiz.InlineNextAsWritten`.
- The commented-out `clearAllCountryColors()` in the wikipedia-globe quizzes: it is never
  called. Its `materialByCountry` is never stored, so it would also throw.
- Network and file I/O. These cover `cachedJSON`/`fetch`, the dead `updateHover`, the mouse
  and touch handlers apart from the longitude correction, `DownloadCountryData.js` and
  `simplify-geojson/test.js`.
- `src/constants.js`. It is data only; its colours appear as constants here.
- The hover tooltip, labels and textures. These are presentation only.

## Findings

| source | as written | input that shows it | evidently intended | confidence | as-written member | corrected member |
|---|---|---|---|---|---|---|
| wikipedia-globe/src/App.jsx:131-158 | the inline quiz's `nextQuestion` builds its question without `firstTryFlag`, so `wasFirstTry` is always falsy | a fresh question on country X, then a click on X: the country is lit 0xffff00 (yellow) | set `firstTryFlag: true` as `wikipedia-globe/src/QuizMenu.jsx:49` does, so a first-try right answer lights green | not executed | SimpleQuiz.AsWrittenFirstTryYellow | SimpleQuiz.FirstTryGreen |
| src/QuizMenu.jsx:171-227 | `correctFirstTry` is raised before `highlightCountry`, and `setTotalAttempts` comes after it; a negative `count` makes `new Float32Array(count * 3)` at line 335 throw, so the attempt is never counted | a country whose exterior is an unclosed four-vertex square, followed by four empty rings (entry {0, -2}; a closed five-vertex square would give 0), a first-try question on it, two clicks on it and a skip: 2 correct in 1 attempt, accuracy 200% | count an attempt for every answered click, so first-try answers never exceed attempts | not executed | Session.AccuracyAbove100 | Session.CompletedKeeps |
| wikipedia-globe/src/App.jsx:492-539 | the click listener is registered in an effect with no dependencies, so its `handleGlobeClick` calls the first render's `nextQuestion`, which reads the initial `quizType` | select 'capital', start, and answer right: the next question is a flag question | ask the next question with the selected type, as `wikipedia-globe/src/QuizMenu.jsx:42` does | not executed | SimpleQuiz.AsWrittenClickAsksFlag | SimpleQuiz.IntendedClickAsksSelected |
