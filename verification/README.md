# Skillify quiz session, modelled in Dafny

Skillify is a single-page quiz application. The user picks a subject, then one
of the chapters the backend lists for it, and asks for generated
multiple-choice questions. The questions are answered one at a time, each
answer revealing an explanation, under a ten-minute countdown. After the last
question the screen shows a final report of correct and wrong answers. A
footer animates a "Made by" word that is scrambled and revealed letter by
letter.

This project models:

- `wrappers.dfy`: the `Option` type that stands for the source's `T | null`
  fields.
- `text_format.dfy` (module `TextFormat`): the clean-up each generated question
  goes through before it is shown. These are the regular-expression
  replacements of `src/App.tsx` lines 98 and 101. Each replacement is a
  function that computes the span the JavaScript engine removes. The span is
  proved to be that engine's match: the leftmost one, extended greedily. The
  `/\*\*/g` replacement is proved to leave no `**` behind and to equal an
  independent description: each run of k asterisks keeps k mod 2 of them.
- `question_flow.dfy` (module `QuestionFlow`): questions as the quiz holds
  them, the formatting `map`, and the invariant of the one-question-at-a-time
  flow of `QuestionDisplay`. The invariant says which questions carry an
  answer and that the correct and wrong tallies count them.
- `app.dfy` (module `App`): the class `Session`. It holds the state of
  `Component` together with that of the `QuestionDisplay` child it mounts.
  Each event handler is a method: choosing a subject, the chapter fetch
  completing, choosing a chapter, generating questions, going back, answering
  and moving on. Each method keeps the session invariant. The module also has
  the screen predicates that decide what is rendered and `getChapterColor`.
- `designed_by.dfy` (module `DesignedBy`): the `scrambleText` step of the
  footer. It has the string-building loop, the reveal counter and the
  cycling through the eleven words.

JavaScript semantics are modelled explicitly where they matter:

- A `string | null` field is truthy when it is present and not empty (`IsSet`).
- The timer start is truthy when it is present and not 0 (`IsStarted`).
- `\d` is the ASCII digits.
- `\s` is ECMAScript's WhiteSpace and LineTerminator characters (`IsSpace`).
- A non-global `replace` removes the leftmost match. A global one removes the
  matches left to right without overlap.

The network replies, the clock (`Date.now()`) and `Math.random` are parameters
of the operations:

- a `ChaptersReply` or `QuestionsReply`;
- the time `now`;
- a sequence of letter indices drawn in [0, 52).

Three behaviours of the code are easy to misread:

- Going back from the quiz does not reset the tallies (`src/App.tsx:121-131`).
  `Session.Back` proves what the user then sees. After at least one answer,
  the final report shows with the partial tallies, not the chapter list.
  Before any answer, the "Generate Questions" button shows again.
- There is no operation that resets the whole session.
- `handleAnswerSelect` itself does not check whether the question already has
  an answer. The answer buttons are disabled while the explanation shows, so
  `Session.Answer` requires the explanation to be hidden.

The countdown is ten minutes, as in the code.

## Model

| member | source | states |
|---|---|---|
| TextFormat.LeadingRun | src/App.tsx:98 | the number of leading characters a greedy `x*` consumes: all of them satisfy the class, and the next one (if any) does not |
| TextFormat.NumberingSpan | src/App.tsx:98 | the length of the prefix `^\*?\d+[:.]?\s*` removes never exceeds the text |
| TextFormat.NumberingSpanMatches | src/App.tsx:98 | a nonempty removed prefix is a full match of `\*?\d+[:.]?\s*` |
| TextFormat.MatchWithinNumberingSpan | src/App.tsx:98 | any match of the pattern at the start of the text is no longer than the removed prefix |
| TextFormat.NumberingSpanIsLongestMatch | src/App.tsx:98 | the removed prefix is a match, and no longer prefix matches: it is the greedy match the engine removes |
| TextFormat.StripNumbering | src/App.tsx:98 | the first replacement leaves a suffix of the question text |
| TextFormat.FirstOccurrence | src/App.tsx:98 | the leftmost index from which `Question:` occurs, or none when it occurs nowhere |
| TextFormat.QuestionLabelSpan | src/App.tsx:98 | `/Question:\s*/` matches exactly when the label occurs; the match starts at its leftmost occurrence and takes all the white space that follows |
| TextFormat.StripQuestionLabel | src/App.tsx:98 | without a `Question:` the text is unchanged; with one, at least the label is removed |
| TextFormat.ExplanationLabelSpan | src/App.tsx:101 | `/^Explanation:\s*/` matches exactly when the text starts with the label; the match takes all the white space after it |
| TextFormat.StripExplanationLabel | src/App.tsx:101 | a text not starting with `Explanation:` is unchanged; otherwise a suffix at least the label shorter remains |
| TextFormat.RemoveBold | src/App.tsx:98-101 | `/\*\*/g` leaves no two adjacent asterisks, keeps every other character in order, removes asterisks in pairs, leaves a text without `**` unchanged and keeps a non-asterisk first character |
| TextFormat.RemoveBoldTripleStar | src/App.tsx:98 | matches do not overlap: `a***b` becomes `a*b` |
| TextFormat.RemoveBoldHalvesStarRuns | src/App.tsx:98-101 | `/\*\*/g` gives exactly `HalveStarRuns`: every maximal run of k asterisks shrinks in place to k mod 2 asterisks and every other character is kept, so single asterisks such as the ones in `2*3*4` survive |
| TextFormat.LeadingRunUnique | src/App.tsx:98 | a greedy run is determined by its two conditions: every counted character fits the class and the next one does not |
| TextFormat.FormatPrompt | src/App.tsx:98 | a question text as shown contains no `**` |
| TextFormat.SuffixKeepsNoDoubleStar | src/App.tsx:101 | removing the leading label after the bold markers cannot bring `**` back |
| TextFormat.FormatExplanation | src/App.tsx:101 | an explanation as shown contains no `**` |
| QuestionFlow.FormatQuestion | src/App.tsx:97-102 | a formatted question keeps the options and correct answers, has no answer yet, and its texts contain no `**` |
| QuestionFlow.FormatQuestions | src/App.tsx:97-102 | the `map` keeps the number and order of the questions, and none carries an answer |
| QuestionFlow.RecordAnswer | src/App.tsx:319-322 | the current question gets the selected label, keeps its other fields, and every other question is unchanged |
| QuestionFlow.CountPartition | src/App.tsx:324-327 | every answered question counts as exactly one of correct or wrong |
| QuestionFlow.CountUpdate | src/App.tsx:319-327 | replacing one question changes a tally by that question's contribution only |
| QuestionFlow.CountAnsweredPrefix | src/App.tsx:338-346 | when exactly the first n questions are answered, n questions are answered |
| QuestionFlow.CountUnanswered | src/App.tsx:97-102 | a freshly formatted list counts no correct and no wrong answer |
| QuestionFlow.FlowTallies | src/App.tsx:307-350 | while questions show, correct + wrong equals the answered questions, which is the current index plus one while the explanation shows, and never exceeds the number of questions |
| QuestionFlow.FlowStarts | src/App.tsx:104-109 | a generated list starts the flow at its first question with no answer shown and zero tallies |
| QuestionFlow.FlowAnswer | src/App.tsx:315-327 | an answer records the label on the current question and adds one to the correct tally exactly when the label is among the correct answers, else to the wrong tally; the invariant is kept |
| QuestionFlow.FlowNext | src/App.tsx:338-342 | moving on from a question other than the last shows the next one unanswered, tallies unchanged |
| QuestionFlow.FlowFinish | src/App.tsx:343-349 | finishing from the last question happens with every question answered and correct + wrong equal to the number of questions |
| App.Fetched | src/App.tsx:88-95 | a reply yields questions exactly when the request succeeded and its `questions` field is present and nonempty |
| App.ChapterColor | src/App.tsx:259-270 | the grey default style goes exactly to names outside the three subjects |
| App.ChapterColorsDistinct | src/App.tsx:259-270 | the three subjects get three different chapter styles |
| App.Session.constructor | src/App.tsx:23-32 | the initial state: nothing chosen, no questions, hidden timer, zero tallies, no timer start |
| App.Session.SelectSubject | src/App.tsx:54-63 | the subject is set; chapter, chapter list and questions are cleared; the timer hides and stops; both tallies become 0 |
| App.Session.ChaptersLoaded | src/App.tsx:35-51 | with a subject chosen, a successful fetch sets the chapter list and a failed one leaves it; nothing else changes |
| App.Session.SelectChapter | src/App.tsx:66-73 | the chapter is set and the subject kept; questions are cleared, the timer hides and stops, both tallies become 0 |
| App.Session.StartQuiz | src/App.tsx:104-109 | the questions are shown from the first one with the timer; the timer start and key change only when no timer runs yet |
| App.Session.Generate | src/App.tsx:76-149 | nothing happens without subject and chapter; a failure or an absent or empty list leaves no questions, a hidden timer and the question cursor as it was; otherwise the formatted questions show from the first one and the countdown shows, running to ten minutes (600000 ms) after the reply's time `now` (for any `now` other than 0, which JavaScript treats as no start) |
| App.Session.Back | src/App.tsx:121-131 | exactly one level unwinds (questions, else chapter, else subject); the timer hides and stops; tallies and chapter list stay; leaving a quiz with answers shows the final report |
| App.Session.Answer | src/App.tsx:315-363 | the label answered is one of the current question's option labels (the buttons of lines 359-363, enabled only while the explanation is hidden); the answer is recorded and shown with its explanation; exactly one tally grows, the correct one when the label is among the correct answers; the invariant is kept; a running countdown keeps its deadline |
| App.Session.Next | src/App.tsx:338-350 | the index moves on and the explanation hides; before the last question the countdown keeps showing with the same deadline; after the last question the questions are cleared, the timer hides and the final report shows with correct + wrong equal to the number of questions |
| App.ScreensExclusive | src/App.tsx:137-223 | over the screen predicates that model the render guards (`ShowsBackButton` line 137, `ShowsTimer` line 145, `ShowsSubjects` line 179, `ShowsChapters` line 195, `ShowsGenerate` line 202, `ShowsQuestions` line 212, `ShowsReport` line 223): the question flow shows alone (no subject list, chapter list, generate button or report), the generate button never shows with the report, and the timer only shows with the questions |
| App.StartTwoQuestionQuiz | src/App.tsx:54-117 | subject, chapter and a two-question reply lead to the first question with the timer and zero tallies |
| App.FinishTwoQuestionQuiz | src/App.tsx:315-350 | one correct and one wrong answer end on the final report with tallies 1 and 1 |
| DesignedBy.WordsAreNonEmpty | src/components/DesignedBy.tsx:5-7 | the word list has eleven words, none empty |
| DesignedBy.Scrambled | src/components/DesignedBy.tsx:11-24 | the shown string has the word's length; positions below `iteration` hold the word's letters; the others hold the drawn letters of `characters`; with every letter revealed it is the word |
| DesignedBy.BuildScrambled | src/components/DesignedBy.tsx:17-24 | the `for` loop builds exactly the scrambled string |
| DesignedBy.Scrambler.constructor | src/components/DesignedBy.tsx:4-13 | the effect starts on the first word with nothing revealed and an empty text |
| DesignedBy.Scrambler.Tick | src/components/DesignedBy.tsx:15-30 | a step shows the scrambled word and reveals one more letter, or, once the whole word shows, keeps it and waits for the pause; the word index and reveal counter stay in range |
| DesignedBy.Scrambler.Resume | src/components/DesignedBy.tsx:31-35 | after the pause the next word (wrapping after the eleventh) is scrambled from scratch, one letter revealed for the next step |

## Left out

- The HTTP requests, `alert` and `console` calls. Each reply is an input of the handler that receives it.
- The `loading` flag and the loader markup. While loading, the other screens are not rendered; the model has no separate loading state.
- Asynchronous interleaving. Each handler is one atomic step over the values it read, and the chapter fetch effect is the separate `ChaptersLoaded` event. The model does not capture a reply that arrives after the user has moved on, such as going back while questions load.
- A reply whose question entries lack `question` or `explanation` strings. In the source this throws inside the `map` and takes the failure path; the model's `QuestionsFailed` stands for it.
- `Date.now()` is the parameter `now`.
- The countdown widget beyond its deadline. Reaching zero has no effect on the session in the source either.
- The wrong-answer shake effect (DOM refs and `setTimeout`) and all rendering and styling.
- React's state batching: each handler's `set…` calls become one transition.
- App.Session.Answer: the source copies the list shallowly and assigns `selectedAnswer` on the shared question object (line 321). The model updates a value, so it does not capture that the previous list shares the change.
- Characters are Dafny `char`s, not UTF-16 code units; text outside the Basic Multilingual Plane is not modelled unit by unit.
- App.Session.SelectSubject and App.Session.SelectChapter: they require the button that calls them to be visible and the chosen name to be one of those listed; the handlers themselves accept any string.
- In `DesignedBy.tsx`, the 100 ms and 4 s timers are the explicit `Tick` and `Resume` steps, and `Math.random` is the sequence of drawn indices, one per position not yet revealed. The cleanup on unmount (line 41) is not modelled. It clears only the 100 ms timeout that line 29 stores. The handle of the 4 s timeout of line 31 is never stored, so a pause still pending at unmount fires anyway and restarts the loop.
- The rendering of the "by" names and their animation, and `tailwind.config.js` (styling only).
