# NEET mock-test tracker — a Dafny model of its core

This project is a Dafny model of the logic inside a NEET preparation web app. The app generates a bank of 1000
practice questions and assembles 180-question mock tests from it. It runs a timed test session, scores it with
+4/−1 marking, and keeps a progress store: the completed syllabus topics, the last ten test results and the
saved mock-test progress.

The model has nine modules:

| module | file | models |
|---|---|---|
| `Common` | `common.dfy` | `Option`, `Result`, `Min`, `Max` |
| `Rounding` | `rounding.dfy` | `Math.round` of an exact rational, half-way cases rounded up |
| `Text` | `text.dfy` | decimal digits, `padStart`, ASCII `toLowerCase`/`toUpperCase`, string `replace` (first occurrence) |
| `Lists` | `lists.dfy` | `filter`-based toggling, `slice(0, n)`, reversal, duplicate-freedom, and the shuffle |
| `Syllabus` | `syllabus.dfy` | the `Topic`/`Chapter`/`SubjectSyllabus` shapes; the syllabus object as its entries in enumeration order |
| `Questions` | `questions.dfy` | the `Question` record and `generateQuestions` (`src/data/questions.ts`) |
| `Quiz` | `quiz.dfy` | `calculateScore` and `generateMockTest` (`src/lib/quiz.ts`) |
| `Progress` | `progress.dfy` | `AppState`, `toggleTopic`, `addQuizResult`, `saveMockProgress`, `getProgress` (`src/context/AppContext.tsx`) |
| `QuizPage` | `quizpage.dfy` | the class `QuizSession`, whose fields are the page's state variables and whose methods are its handlers (`src/pages/QuizPage.tsx`) |

## How inputs the program reads from its environment are modelled

- **Randomness** becomes parameters.
  - Each `[...a].sort(() => Math.random() - 0.5)` is a *Lehmer code*: a sequence of naturals, where each entry picks the next element among those left (modulo their number). Every permutation is produced by some code (`Lists.ShuffleComplete`).
  - The mock test's four shuffles are the four codes of a `MockOrder`.
  - The generator's random choices for bank position `k` (0-based, across all three subjects) are `rand(k)`: the option order, the answer (0..3) and the year offset (0..10).
- **The clock** becomes parameters.
  - `Date.now()` is `now`.
  - `new Date().toISOString()` is `date`.
  - The one-second interval is the field `QuizSession.timerRunning`. The effect starts it when a test starts, and the tick that reaches zero clears it. Each call to `QuizSession.Tick` is one second.
- **The AI service** (`generateAIQuestions`) becomes a parameter `ai : Subject -> Option<seq<Question>>`. `None` stands for a call that throws.
- **The static syllabus** is a parameter `syl`. Its content is not modelled.
- **The generated question bank** `questionBank` is `Questions.Bank(Questions.SourceWording(), syl, rand)`. `generateMockTest` works on any bank passed to it.
- **The fixed English texts** are the templates, the four option sentences and the explanation sentence.
  - The generator takes them through a `Wording` value, and its lemmas hold for any wording.
  - `SourceWording()` holds the program's own texts. `SourceOptions` and `QuestionIdExamples` state facts about those literals.

## Behaviour of the program worth knowing

- `calculateScore` on an empty list gives `NaN` as its percentage. The model has `Percentage.NotANumber` for it, and the empty list is an ordinary input.
- `startAIQuiz` does not check that the session is still on the start screen when the AI answers arrive; the answers are applied whenever they come. While a request is running, both start buttons are disabled.
- `handleSubmit` has no guard against running twice. The timer submits exactly once, because the tick that reaches zero clears `timerRunning`. A user submit in the same second as the timer's is a second `HandleSubmit` call.
- `startQuiz` and `startAIQuiz` do not reset `currentIndex`, `answers` or `markedForReview`. On the start screen these still hold their initial values, and `QuizSession.Valid` records this.
- `replace` with a string pattern expands `$$`, `$&`, `` $` `` and `$'` in the replacement text, so a topic or chapter name containing one of them is not inserted literally (`Text.Substitute`).

## Model

| member | source | states |
|---|---|---|
| Questions.Pool | src/lib/quiz.ts:4-6 | `filter(q => q.subject === s)`: never longer than its input, and every element it keeps has subject `s` |
| Questions.PoolsPartition | src/lib/quiz.ts:4-6 | the three subject pools together hold exactly the input's questions (multiset equality) |
| Questions.PoolPermutation | src/lib/quiz.ts:14 | rearranging a sequence keeps each subject's pool size |
| Questions.PoolAppend | src/lib/quiz.ts:4-6 | filtering distributes over concatenation |
| Questions.QuestionIdInjective | src/data/questions.ts:52 | two ids are equal only for the same subject and the same loop index |
| Questions.QuestionIdExamples | src/data/questions.ts:52 | the first Physics id is `PHY_001` and the last Biology id is `BIO_500` |
| Questions.SourceOptions | src/data/questions.ts:57-62 | the program's wording has exactly four option sentences |
| Questions.SubjectKeyIsLower | src/data/questions.ts:38 | the syllabus key looked up is the lowercased subject name |
| Questions.RenderAt | src/data/questions.ts:42-67 | the question pushed at position k is the one built from the k-th step: the pushes keep the loop order |
| Questions.StepsUpToAt | src/data/questions.ts:37-47 | position `k` of the step list is the step for subject `SubjectAt(k)` and loop index `LoopIndexAt(k)` |
| Questions.GenerateQuestions | src/data/questions.ts:16-71 | succeeds exactly when every subject has a syllabus entry with chapters, and every selected chapter has topics; the result is then the 1000-question bank; otherwise it reports the first failing position |
| Questions.GenerateForSubject | src/data/questions.ts:37-67 | one subject's counted loop extends a correctly built prefix to the next subject's offset, or reports the first failure |
| Questions.MissingHere | src/data/questions.ts:38-39 | a subject without a syllabus entry fails, with `MissingSubject`, at the first position of its block |
| Questions.NoChaptersHere | src/data/questions.ts:39-45 | a subject with no chapters fails with `NoChapters` (`i % 0` selects no chapter) |
| Questions.NoTopicsHere | src/data/questions.ts:45-46 | a selected chapter without topics fails with `NoTopics` at that loop index |
| Questions.BankLayout | src/data/questions.ts:18-53 | position `k` has subject Physics below 250, Chemistry below 500, Biology after that, and the id built from that subject and its loop index |
| Questions.BankSelection | src/data/questions.ts:39-46 | the chapter is `allChapters[i % length]` and the topic is `chapter.topics[i % length]` |
| Questions.BankText | src/data/questions.ts:48-56 | the question text is template `i % 8` with its first `{topic}` and then its first `{chapter}` replaced, and the id tag at the end |
| Questions.BankOptions | src/data/questions.ts:57-63 | the options are a permutation of the wording's option sentences, and the answer is in 0..3 |
| Questions.BankExplanationAndYear | src/data/questions.ts:64-65 | the explanation is the wording's sentence for that topic, chapter and index; the year is present and in 2015..2025 |
| Questions.BankAspect | src/data/questions.ts:64 | in the program's own bank, the explanation at position k says "structural" exactly when k is odd (its loop index is even) and "functional" otherwise |
| Questions.BankIdsDistinct | src/data/questions.ts:52 | no two positions of the bank share an id |
| Questions.BankSubjects | src/data/questions.ts:18-42 | every position holds a question of its block's subject |
| Questions.BankPools | src/data/questions.ts:18-24 | the Physics pool is the first 250 questions, Chemistry the next 250, Biology the last 500 |
| Quiz.WithTally | src/lib/quiz.ts:36-41 | writing one subject's tally leaves the other two subjects' tallies unchanged |
| Quiz.CalculateScore | src/lib/quiz.ts:17-53 | the loop's counters, breakdown and percentage are those of the specification `Summary` |
| Quiz.CountsConserved | src/lib/quiz.ts:29-50 | correct + incorrect + unattempted = number of questions, and score = 4·correct − incorrect |
| Quiz.ScoreBounds | src/lib/quiz.ts:33-40 | −n ≤ score ≤ 4n |
| Quiz.CountsByOutcome | src/lib/quiz.ts:30-40 | each counter is the number of questions with that outcome, where a question is unattempted without an entry, correct when its entry equals its answer and incorrect otherwise |
| Quiz.BreakdownByPool | src/lib/quiz.ts:23-41 | a subject's total is the size of its pool, and its correct count is the number of correct answers within that pool |
| Quiz.BreakdownSums | src/lib/quiz.ts:23-41 | per-subject totals sum to n, per-subject correct counts sum to `correct`, and no subject has more correct than total |
| Quiz.PercentageRange | src/lib/quiz.ts:51 | for n > 0, the percentage is `Math.round(25·score/n)`, lies in [−25, 100] and is not clamped at 0 |
| Quiz.SummaryPercentage | src/lib/quiz.ts:50-51 | the percentage is NaN exactly for an empty test, and otherwise lies in [−25, 100] |
| Quiz.AllCorrect | src/lib/quiz.ts:51 | all answers correct gives 100 |
| Quiz.MixedExample | src/lib/quiz.ts:51 | 4 questions with 1 correct and 1 incorrect give score 3 and percentage 19 |
| Quiz.WrongExample | src/lib/quiz.ts:51 | a single wrong answer gives score −1 and percentage −25 |
| Quiz.SelectionShape | src/lib/quiz.ts:8-12 | a subject's selection is `min(k, pool size)` questions of that subject, drawn from its pool |
| Quiz.MockTestFromBank | src/lib/quiz.ts:3-15 | every mock-test question comes from the bank, and no bank element is used more often than the bank holds it |
| Quiz.MockTestComposition | src/lib/quiz.ts:3-15 | the test holds min(90, Biology pool) Biology, min(45, Physics pool) Physics and min(45, Chemistry pool) Chemistry questions, and nothing else |
| Quiz.MockTestOfBank | src/lib/quiz.ts:3-15 | on the generated bank: exactly 180 questions, 90/45/45 by subject, no question twice |
| Quiz.MockTest | src/lib/quiz.ts:3-15 | `generateMockTest` returns at most 90 + 45 + 45 questions; which ones is stated by `MockTestFromBank`, `MockTestComposition` and `MockTestOfBank` |
| Lists.Shuffle | src/lib/quiz.ts:8 | a shuffle is a permutation: the same length and the same multiset |
| Lists.ShuffleComplete | src/lib/quiz.ts:8 | every permutation is the result of some shuffle |
| Lists.RemoveAll | src/context/AppContext.tsx:45 | `filter(id => id !== topicId)`: every copy of the id removed, every other element kept with its multiplicity |
| Lists.Toggle | src/context/AppContext.tsx:44-46 | the toggled id's membership flips, no other membership changes, an absent id is appended at the end, and duplicate-freedom is kept |
| Lists.ToggleTwice | src/pages/QuizPage.tsx:80-85 | toggling the same id twice restores every membership |
| Lists.Take | src/context/AppContext.tsx:54 | `slice(0, n)` has length min(n, length) |
| Lists.SubMultisetNoDup | src/lib/quiz.ts:10-14 | taking elements no more often than a duplicate-free sequence holds them gives a duplicate-free result |
| Rounding.RoundHalfUp | src/lib/quiz.ts:51 | the result r satisfies r − ½ ≤ num/den < r + ½ |
| Rounding.RoundHalfUpUnique | src/context/AppContext.tsx:96 | that window determines the result |
| Text.PadStart | src/data/questions.ts:52 | `padStart(width, c)`: the result's length is max(length, width), it ends with the original string, and the padding consists of `c` |
| Text.ParsePadded | src/pages/QuizPage.tsx:124 | a zero-padded decimal reads back as its number |
| Text.DecimalString | src/data/questions.ts:52 | `String(i)`: at least one digit, a single digit exactly below 10, no leading zero |
| Text.ParseDecimalString | src/data/questions.ts:52 | the decimal digits of `n` read back as `n` |
| Text.ReplaceFirst | src/data/questions.ts:49 | `replace` with a string pattern rewrites only the first occurrence, by the replacement with its `$` patterns expanded, and leaves the string alone when the pattern does not occur |
| Text.Substitute | src/data/questions.ts:49 | a replacement text without `$` is inserted as it is |
| Text.SubstituteMatched | src/data/questions.ts:49 | a name `a$&b` inserts `a{topic}b`: `$&` writes the matched placeholder back |
| Text.ToLower | src/context/AppContext.tsx:81 | same length, no upper-case ASCII letter left, each upper-case letter replaced by its lower-case partner, every other character kept |
| Text.ToLowerIdempotent | src/context/AppContext.tsx:81 | lowercasing twice is lowercasing once |
| Text.ToUpper | src/data/questions.ts:52 | same length, no lower-case ASCII letter left, each lower-case letter replaced by its upper-case partner, every other character kept |
| Syllabus.Lookup | src/context/AppContext.tsx:81 | the entry under the key, or none exactly when no entry has that key |
| Progress.InitialState | src/context/AppContext.tsx:29-34 | no completed topics, an empty history, no saved progress, last sync `now` |
| Progress.ToggleTopic | src/context/AppContext.tsx:41-49 | the topic's membership flips, other topics keep theirs, an absent topic is appended, the other fields are kept, `lastSync` is `now`, and the store's invariant is preserved |
| Progress.ToggleTopicTwice | src/context/AppContext.tsx:44-46 | toggling twice restores membership, and on a duplicate-free list also the multiset |
| Progress.AddQuizResult | src/context/AppContext.tsx:51-57 | the result is first, followed by the first min(9, n) old entries in order; at most ten entries; the other fields are kept |
| Progress.AddAllHistory | src/context/AppContext.tsx:54 | after a run of additions, the history is the ten newest of (additions newest first, then the old history) |
| Progress.EleventhEvictsFirst | src/context/AppContext.tsx:54 | after eleven additions, only the last ten remain, newest first |
| Progress.SaveMockProgress | src/context/AppContext.tsx:59-65 | `mockProgress` is replaced wholesale, the other fields are kept, and `lastSync` is `now` |
| Progress.FindChapter | src/context/AppContext.tsx:83 | `find`: the first chapter with the id, or none exactly when no chapter has it |
| Progress.CountDone | src/context/AppContext.tsx:72-77 | the completed count never exceeds the number of topics |
| Progress.ProcessChapter | src/context/AppContext.tsx:71-78 | the total grows by the chapter's topics, and the count grows by those whose id is completed |
| Progress.ProcessChapters | src/context/AppContext.tsx:86-92 | `forEach(processChapter)` over a run of chapters adds their topics and their completed count |
| Progress.ProcessSubject | src/context/AppContext.tsx:82-88 | the subject branch counts the chosen chapter, or every chapter of both classes |
| Progress.ProcessSyllabus | src/context/AppContext.tsx:89-94 | the whole-syllabus branch counts every entry's `class11` then `class12` chapters |
| Progress.GetProgress | src/context/AppContext.tsx:67-97 | the loops' result is the specification `ProgressOf`: rounded 100·completed/total of the scope, 0 for an empty scope, an error for an unknown subject |
| Progress.ProgressRange | src/context/AppContext.tsx:96 | progress lies in [0, 100], and is 0 when the scope holds no topics |
| Progress.CountDoneIgnoresMultiplicity | src/context/AppContext.tsx:74 | only whether a scope topic's id is recorded matters, so duplicate or foreign ids cannot raise progress |
| Progress.AllDone | src/context/AppContext.tsx:96 | every scope topic done gives 100 |
| Progress.UnknownSubjectFails | src/context/AppContext.tsx:80-81 | a subject with no entry under its lowercased name is an error |
| Progress.UnknownChapterIsZero | src/context/AppContext.tsx:82-84 | a chapter id that no chapter of the subject has yields 0 |
| Progress.ChapterScope | src/context/AppContext.tsx:82-84 | a chapter scope counts exactly the first chapter of `class11 ++ class12` carrying the id |
| QuizPage.AIQuestions | src/pages/QuizPage.tsx:49-55 | the AI loop collects Biology's, then Physics', then Chemistry's questions, or fails if any call throws |
| QuizPage.TicksUntilSubmit | src/pages/QuizPage.tsx:25-31 | counting down from t, the submitting tick is the max(1, t)-th, no earlier tick submits, and each earlier tick takes one second off |
| QuizPage.TimeParts | src/pages/QuizPage.tsx:120-123 | 3600·h + 60·m + s = t, with m and s below 60 |
| QuizPage.TwoDigitsReadBack | src/pages/QuizPage.tsx:124 | minutes and seconds print as exactly two digits that read back as the number |
| QuizPage.ClockReadsBack | src/pages/QuizPage.tsx:124 | the display is `mm:ss`, with `h:` in front only when h > 0, and reads back as 3600h + 60m + s |
| QuizPage.FormatTime | src/pages/QuizPage.tsx:120-125 | `formatTime(t)` is a clock display that reads back as t, and is `mm:ss` alone exactly when t < 3600 |
| QuizPage.FormatStandardBudget | src/pages/QuizPage.tsx:120-125 | `formatTime(10800)` is `3:00:00` |
| QuizPage.QuizSession.constructor | src/pages/QuizPage.tsx:15-38 | the initial state: no questions, index 0, no answers, nothing marked, 10800 seconds, not started, not generating |
| QuizPage.QuizSession.Begin | src/pages/QuizPage.tsx:58-60 | the questions and the time budget are set, the test is started and the timer runs; index, answers and marks are kept |
| QuizPage.QuizSession.StartQuiz | src/pages/QuizPage.tsx:40-44 | the questions are the mock test, 10800 seconds are on the clock, the test is started, and the timer runs |
| QuizPage.QuizSession.StartAIQuiz | src/pages/QuizPage.tsx:46-71 | non-empty collected AI questions start the test with exactly those questions and 900 seconds; an empty collection or a thrown call falls back to the standard test; generation ends in every case; index, answers and marks are kept |
| QuizPage.QuizSession.HandleAnswer | src/pages/QuizPage.tsx:73-78 | the current question's entry is set, overwriting any earlier one; every other field is unchanged |
| QuizPage.QuizSession.ToggleMarkForReview | src/pages/QuizPage.tsx:80-85 | the current id is added or removed symmetrically; the answers are untouched |
| QuizPage.QuizSession.Previous | src/pages/QuizPage.tsx:253 | the index becomes max(0, i − 1) and stays in range |
| QuizPage.QuizSession.Next | src/pages/QuizPage.tsx:260 | the index becomes min(len − 1, i + 1) and stays in range |
| QuizPage.QuizSession.Jump | src/pages/QuizPage.tsx:304 | the index becomes the chosen grid position |
| QuizPage.QuizSession.Tick | src/pages/QuizPage.tsx:22-36 | above one second, one second less; otherwise 0, the interval cleared and the submit signalled; time never goes negative |
| QuizPage.QuizSession.HandleSubmit | src/pages/QuizPage.tsx:87-113 | no change to the store for an empty test; otherwise one 'Full Mock' summary, with the computed score and total 4·n, added to the history |
| QuizPage.QuizSession.AnsweredCountIsAnsweredIds | src/pages/QuizPage.tsx:293-297 | the displayed answered count is the number of distinct shown question ids that have an entry |

## Left out

- Persistence to `localStorage` and the JSON parse/serialise of the state are I/O and are not modelled. A stored history longer than ten entries therefore does not arise in the model.
- `src/services/geminiService.ts` is a network call to a generative API and is not part of this model. Its per-subject results are the parameter `ai`.
- Browser and React plumbing is not sequential logic and is not modelled: `setInterval` scheduling, the `useEffect`/`handleSubmitRef` wiring, the `await` interleaving, `window.confirm`, `alert`, `console.error`, `navigate` and the rendered JSX.
- `Math.random` is replaced by arbitrary inputs (Lehmer codes and `rand`). The bias of the comparator-based shuffle is not modelled.
- Floating-point arithmetic is replaced by exact rational rounding in `Math.round`. IEEE rounding could differ at exact half-way points.
- `toLowerCase`/`toUpperCase` map ASCII letters only. Unicode case mapping is not modelled; the subject names and keys are ASCII.
- The static content of `src/data/syllabus.ts` is a parameter. Only its shapes are modelled.
- Presentation files are rendering and routing only: `DashboardPage.tsx`, `TrackerPage.tsx`, `ResultsPage.tsx`, `Layout.tsx`, `ProgressBar.tsx` and `App.tsx`.
- Progress.AddAllHistory: requires a history of at most ten entries. With a longer stored history and no additions, the history would stay longer than ten.
- Progress.EleventhEvictsFirst: requires the same short history, for the same reason.
- QuizPage.QuizSession.HandleSubmit: the `catch` branch is not modelled. `calculateScore` and `addQuizResult` cannot fail in the model. The results handed to `navigate` are the session's own `questions` and `answers`, which the method leaves unchanged.
- QuizPage.QuizSession.HandleAnswer: requires a started test with a current question. The same holds for ToggleMarkForReview, Previous, Next and Jump. These controls are rendered only on the question screen, and with no current question the source would throw reading `questions[currentIndex].id`.
- QuizPage.QuizSession.StartQuiz: requires the start screen, as does StartAIQuiz. Their buttons are rendered only while the test is not started and no generation is running.
- The session's `isGenerating` is true only during the `await`s of `startAIQuiz`. The model sets and clears it inside one method call, so other handlers never observe it.
