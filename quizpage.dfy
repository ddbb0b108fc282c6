/**
 * The mock-test session of src/pages/QuizPage.tsx: the page's state variables as the fields of a class and its
 * event handlers as methods. What the page renders is not modelled. The interval timer is the field
 * `timerRunning`: the effect starts it when the test starts, and the tick that reaches zero clears it.
 * The AI service is the parameter `ai` (None when the call throws), the mock test is drawn from the
 * parameters `bank` and `order`, and the clock reading is the parameter `date` / `now`.
 */
module QuizPage {
  import opened Common
  import opened Text
  import opened Lists
  import opened Questions
  import opened Quiz
  import opened Progress

  /** `180 * 60`: three hours for the standard mock test. */
  const StandardSeconds: nat := 10800

  /** `15 * 60`: fifteen minutes for the AI test. */
  const AISeconds: nat := 900

  /** `['Biology', 'Physics', 'Chemistry']`: the order the AI service is asked. */
  const AISubjects: seq<Subject> := [Biology, Physics, Chemistry]

  /** The AI loop over `subjects`: each call's questions appended in turn, or None once a call throws. */
  function Collect(ai: Subject -> Option<seq<Question>>, subjects: seq<Subject>): (r: Option<seq<Question>>)
    ensures r.Some? <==> forall j :: 0 <= j < |subjects| ==> ai(subjects[j]).Some?
  {
    if subjects == [] then Some([])
    else
      var head := Collect(ai, subjects[..|subjects| - 1]);
      var last := ai(subjects[|subjects| - 1]);
      if head.None? || last.None? then None else Some(head.value + last.value)
  }

  /** What `startAIQuiz` collects: Biology's, then Physics', then Chemistry's questions, unless a call throws. */
  function AIQuestions(ai: Subject -> Option<seq<Question>>): (r: Option<seq<Question>>)
    ensures r.Some? <==> ai(Biology).Some? && ai(Physics).Some? && ai(Chemistry).Some?
    ensures r.Some? ==> r.value == ai(Biology).value + ai(Physics).value + ai(Chemistry).value
  {
    assert AISubjects[..2] == [Biology, Physics] && [Biology, Physics][..1] == [Biology] && [Biology][..0] == [];
    var c1 := Collect(ai, [Biology]);
    assert c1 == if ai(Biology).None? then None else Some([] + ai(Biology).value);
    var c2 := Collect(ai, [Biology, Physics]);
    assert c2 == if c1.None? || ai(Physics).None? then None else Some(c1.value + ai(Physics).value);
    Collect(ai, AISubjects)
  }

  /** The `setTimeLeft` updater of one tick: the new time left and whether the test is submitted. */
  function TickStep(prev: int): (int, bool) {
    if prev <= 1 then (0, true) else (prev - 1, false)
  }

  /** Counting down from t, the tick that submits is the max(1, t)-th, and no earlier tick submits. */
  function TicksUntilSubmit(t: int): (n: nat)
    ensures n == Max(1, t)
    ensures forall u :: t - n + 1 < u <= t ==> TickStep(u) == (u - 1, false)
    ensures TickStep(t - n + 1) == (0, true)
    decreases t
  {
    if t <= 1 then 1 else 1 + TicksUntilSubmit(t - 1)
  }

  /** `n.toString().padStart(2, '0')`. */
  function TwoDigits(n: nat): string {
    PadStart(DecimalString(n), 2, '0')
  }

  /** The display for h hours, m minutes and s seconds: `h:` only when there are whole hours. */
  function Clock(h: nat, m: nat, s: nat): string {
    (if h > 0 then DecimalString(h) + ":" else "") + TwoDigits(m) + ":" + TwoDigits(s)
  }

  /** The parts `formatTime` prints are the hours/minutes/seconds decomposition of its argument. */
  lemma TimeParts(seconds: nat)
    ensures var h, m, s := seconds / 3600, (seconds % 3600) / 60, seconds % 60;
            3600 * h + 60 * m + s == seconds && 0 <= m < 60 && 0 <= s < 60
  {
    var h, rest := seconds / 3600, seconds % 3600;
    assert seconds == 3600 * h + rest && 0 <= rest < 3600;
    var m, s := rest / 60, rest % 60;
    assert rest == 60 * m + s && 0 <= s < 60;
    assert seconds == 60 * (60 * h + m) + s;
    assert seconds % 60 == s;
  }

  /** Minutes and seconds always print as exactly two digits that read back as the number. */
  lemma TwoDigitsReadBack(n: nat)
    requires n < 60
    ensures |TwoDigits(n)| == 2 && AllDigits(TwoDigits(n)) && ParseDecimal(TwoDigits(n)) == n
  {
    ParsePadded(n, 2);
    assert n >= 10 ==> |DecimalString(n)| == |DecimalString(n / 10)| + 1 && n / 10 < 10;
  }

  /** The shape of a clock display: `mm:ss`, optionally preceded by digits and `:`. */
  predicate ClockShape(r: string) {
    && |r| >= 5 && r[|r| - 3] == ':' && AllDigits(r[|r| - 5..|r| - 3]) && AllDigits(r[|r| - 2..])
    && (|r| > 5 ==> |r| >= 7 && r[|r| - 6] == ':' && AllDigits(r[..|r| - 6]))
  }

  /** The number of seconds a clock display denotes. */
  function ReadClock(r: string): nat
    requires ClockShape(r)
  {
    var hours := if |r| == 5 then 0 else ParseDecimal(r[..|r| - 6]);
    3600 * hours + 60 * ParseDecimal(r[|r| - 5..|r| - 3]) + ParseDecimal(r[|r| - 2..])
  }

  /** A clock display reads back as the time it shows, and is `mm:ss` alone exactly when there are no hours. */
  lemma ClockReadsBack(h: nat, m: nat, s: nat)
    requires m < 60 && s < 60
    ensures ClockShape(Clock(h, m, s))
    ensures ReadClock(Clock(h, m, s)) == 3600 * h + 60 * m + s
    ensures |Clock(h, m, s)| == 5 <==> h == 0
  {
    TwoDigitsReadBack(m);
    TwoDigitsReadBack(s);
    ParseDecimalString(h);
    var r := Clock(h, m, s);
    var prefix := if h > 0 then DecimalString(h) + ":" else "";
    assert r == prefix + TwoDigits(m) + ":" + TwoDigits(s);
    assert r[|r| - 2..] == TwoDigits(s);
    assert r[|r| - 5..|r| - 3] == TwoDigits(m);
    if h > 0 {
      assert r[..|r| - 6] == DecimalString(h);
    }
  }

  /** `formatTime(seconds)`: a clock display that reads back as `seconds`, and is `mm:ss` alone exactly below an hour. */
  function FormatTime(seconds: nat): (r: string)
    ensures ClockShape(r)
    ensures ReadClock(r) == seconds
    ensures |r| == 5 <==> seconds < 3600
  {
    TimeParts(seconds);
    ClockReadsBack(seconds / 3600, (seconds % 3600) / 60, seconds % 60);
    Clock(seconds / 3600, (seconds % 3600) / 60, seconds % 60)
  }

  /** The standard budget shows as three hours. */
  lemma FormatStandardBudget()
    ensures FormatTime(StandardSeconds) == "3:00:00"
  {
    assert StandardSeconds / 3600 == 3 && (StandardSeconds % 3600) / 60 == 0 && StandardSeconds % 60 == 0;
    assert DigitChar(3) == '3' && DigitChar(0) == '0';
    assert DecimalString(3) == "3" && DecimalString(0) == "0";
    assert Repeat('0', 1) == "0";
    assert TwoDigits(0) == "00";
    assert FormatTime(StandardSeconds) == "3" + ":" + "00" + ":" + "00";
  }

  /** A mock test in progress: `questions`, `currentIndex`, `answers`, `markedForReview`, `timeLeft`, `isStarted`, `isGenerating`. */
  class QuizSession {
    var questions: seq<Question>
    var currentIndex: int
    var answers: Answers
    var markedForReview: seq<string>
    var timeLeft: int
    var isStarted: bool
    var isGenerating: bool
    var timerRunning: bool

    /** The ids of the current questions. */
    function Ids(): set<string>
      reads this
    {
      set i | 0 <= i < |questions| :: questions[i].id
    }

    /** What the handlers keep: a valid index, no negative time, entries only for shown questions, a running timer only during the test. */
    predicate Valid()
      reads this
    {
      && 0 <= currentIndex && (currentIndex < |questions| || currentIndex == 0)
      && 0 <= timeLeft
      && answers.Keys <= Ids()
      && (forall id :: id in markedForReview ==> id in Ids())
      && NoDup(markedForReview)
      && (!isStarted ==> currentIndex == 0 && answers == map[] && markedForReview == [] && !timerRunning)
      && (timerRunning ==> isStarted)
      && !isGenerating
    }

    /** The initial `useState` values. */
    constructor ()
      ensures Valid()
      ensures questions == [] && currentIndex == 0 && answers == map[] && markedForReview == []
      ensures timeLeft == StandardSeconds && !isStarted && !isGenerating && !timerRunning
    {
      questions := [];
      currentIndex := 0;
      answers := map[];
      markedForReview := [];
      timeLeft := StandardSeconds;
      isStarted := false;
      isGenerating := false;
      timerRunning := false;
    }

    /** What both start handlers do once the questions are known: `setQuestions`, `setTimeLeft`, `setIsStarted(true)`. */
    method Begin(qs: seq<Question>, seconds: nat)
      requires Valid() && !isStarted
      modifies this
      ensures Valid()
      ensures questions == qs && timeLeft == seconds && isStarted && timerRunning
      ensures currentIndex == old(currentIndex) && answers == old(answers) && markedForReview == old(markedForReview)
    {
      questions := qs;
      timeLeft := seconds;
      isStarted := true;
      timerRunning := true;
    }

    /** `startQuiz()` from the start screen: a fresh mock test with three hours on the clock. */
    method StartQuiz(bank: seq<Question>, order: MockOrder)
      requires Valid() && !isStarted
      modifies this
      ensures Valid()
      ensures questions == MockTest(bank, order) && timeLeft == StandardSeconds && isStarted && timerRunning
      ensures currentIndex == old(currentIndex) && answers == old(answers) && markedForReview == old(markedForReview)
    {
      Begin(MockTest(bank, order), StandardSeconds);
    }

    /**
     * `startAIQuiz()` from the start screen: ask for Biology, Physics and Chemistry in turn; a non-empty
     * collection starts with fifteen minutes, an empty one or a failed call falls back to the standard test.
     */
    method StartAIQuiz(bank: seq<Question>, order: MockOrder, ai: Subject -> Option<seq<Question>>)
      requires Valid() && !isStarted
      modifies this
      ensures Valid() && isStarted && timerRunning && !isGenerating
      ensures var fetched := AIQuestions(ai);
              if fetched.Some? && |fetched.value| > 0 then questions == fetched.value && timeLeft == AISeconds
              else questions == MockTest(bank, order) && timeLeft == StandardSeconds
      ensures currentIndex == old(currentIndex) && answers == old(answers) && markedForReview == old(markedForReview)
    {
      isGenerating := true;
      var all: seq<Question> := [];
      var k := 0;
      while k < 3
        invariant 0 <= k <= 3
        invariant Collect(ai, AISubjects[..k]) == Some(all)
        invariant questions == old(questions) && isStarted == old(isStarted) && timerRunning == old(timerRunning)
        invariant answers == old(answers) && markedForReview == old(markedForReview)
        invariant timeLeft == old(timeLeft) && currentIndex == old(currentIndex)
      {
        var fetched := ai(AISubjects[k]);
        assert AISubjects[..k + 1][..k] == AISubjects[..k];
        if fetched.None? {
          assert AIQuestions(ai).None?;
          isGenerating := false;
          StartQuiz(bank, order);
          return;
        }
        all := all + fetched.value;
        k := k + 1;
      }
      assert AISubjects[..3] == AISubjects;
      isGenerating := false;
      if |all| > 0 {
        Begin(all, AISeconds);
      } else {
        StartQuiz(bank, order);
      }
    }

    /** `handleAnswer(optionIndex)`: record (or overwrite) the answer to the current question. */
    method HandleAnswer(optionIndex: int)
      requires Valid() && isStarted && 0 <= currentIndex < |questions|
      modifies this
      ensures Valid()
      ensures answers == old(answers)[old(questions[currentIndex].id) := optionIndex]
      ensures questions == old(questions) && currentIndex == old(currentIndex) && markedForReview == old(markedForReview)
      ensures timeLeft == old(timeLeft) && isStarted == old(isStarted) && timerRunning == old(timerRunning)
    {
      answers := answers[questions[currentIndex].id := optionIndex];
      assert questions[currentIndex].id in Ids();
    }

    /** `toggleMarkForReview()`: flag the current question, or unflag it if it was flagged. */
    method ToggleMarkForReview()
      requires Valid() && isStarted && 0 <= currentIndex < |questions|
      modifies this
      ensures Valid()
      ensures markedForReview == Toggle(old(markedForReview), old(questions[currentIndex].id))
      ensures questions == old(questions) && currentIndex == old(currentIndex) && answers == old(answers)
      ensures timeLeft == old(timeLeft) && isStarted == old(isStarted) && timerRunning == old(timerRunning)
    {
      var id := questions[currentIndex].id;
      assert id in Ids();
      markedForReview := Toggle(markedForReview, id);
    }

    /** The Previous button: `Math.max(0, prev - 1)`. */
    method Previous()
      requires Valid() && isStarted && 0 <= currentIndex < |questions|
      modifies this
      ensures Valid() && 0 <= currentIndex < |questions|
      ensures currentIndex == Max(0, old(currentIndex) - 1)
      ensures questions == old(questions) && answers == old(answers) && markedForReview == old(markedForReview)
      ensures timeLeft == old(timeLeft) && isStarted == old(isStarted) && timerRunning == old(timerRunning)
    {
      currentIndex := Max(0, currentIndex - 1);
    }

    /** The Next button: `Math.min(questions.length - 1, prev + 1)`. */
    method Next()
      requires Valid() && isStarted && 0 <= currentIndex < |questions|
      modifies this
      ensures Valid() && 0 <= currentIndex < |questions|
      ensures currentIndex == Min(|questions| - 1, old(currentIndex) + 1)
      ensures questions == old(questions) && answers == old(answers) && markedForReview == old(markedForReview)
      ensures timeLeft == old(timeLeft) && isStarted == old(isStarted) && timerRunning == old(timerRunning)
    {
      currentIndex := Min(|questions| - 1, currentIndex + 1);
    }

    /** A button of the status grid: `setCurrentIndex(idx)` for the question it shows. */
    method Jump(idx: nat)
      requires Valid() && isStarted && idx < |questions|
      modifies this
      ensures Valid() && currentIndex == idx
      ensures questions == old(questions) && answers == old(answers) && markedForReview == old(markedForReview)
      ensures timeLeft == old(timeLeft) && isStarted == old(isStarted) && timerRunning == old(timerRunning)
    {
      currentIndex := idx;
    }

    /**
     * One second of the interval: above one second left, one second less; otherwise the clock shows 0, the
     * interval is cleared and `submit` tells the caller to run `handleSubmit`.
     */
    method Tick() returns (submit: bool)
      requires Valid() && timerRunning
      modifies this
      ensures Valid()
      ensures (timeLeft, submit) == TickStep(old(timeLeft))
      ensures submit <==> old(timeLeft) <= 1
      ensures timerRunning <==> !submit
      ensures questions == old(questions) && currentIndex == old(currentIndex) && answers == old(answers)
      ensures markedForReview == old(markedForReview) && isStarted == old(isStarted)
    {
      if timeLeft <= 1 {
        timerRunning := false;
        timeLeft := 0;
        submit := true;
      } else {
        timeLeft := timeLeft - 1;
        submit := false;
      }
    }

    /**
     * `handleSubmit()`: nothing for an empty test; otherwise the store gains a 'Full Mock' summary with the score
     * and the maximum 4 per question. The session itself is left as it is (the page navigates away).
     */
    method HandleSubmit<P(==)>(store: AppState<P>, date: string, now: int) returns (store': AppState<P>)
      ensures |questions| == 0 ==> store' == store
      ensures |questions| > 0 ==>
                store' == AddQuizResult(store, QuizSummary("Full Mock", date, Summary(questions, answers).score, 4 * |questions|), now)
    {
      if |questions| == 0 {
        return store;
      }
      var results := CalculateScore(questions, answers);
      store' := AddQuizResult(store, QuizSummary("Full Mock", date, results.score, results.totalQuestions * 4), now);
    }

    /** `Object.keys(answers).length`. */
    function AnsweredCount(): nat
      reads this
    {
      |answers.Keys|
    }

    /** The answered count is the number of distinct shown question ids that have an answer. */
    lemma AnsweredCountIsAnsweredIds()
      requires Valid()
      ensures AnsweredCount() == |set i | 0 <= i < |questions| && questions[i].id in answers :: questions[i].id|
    {
      var shown := set i | 0 <= i < |questions| && questions[i].id in answers :: questions[i].id;
      assert shown == answers.Keys by {
        forall id | id in answers.Keys
          ensures id in shown
        {
          assert id in Ids();
        }
      }
    }
  }
}
