/**
 * The question record and the question-bank generator of src/data/questions.ts.
 *
 * The generator walks the subjects Physics, Chemistry, Biology and, for loop index i = 1..target,
 * picks a chapter and a topic by `i mod length`, fills a template chosen by `i mod 8`, and pushes one
 * question with four shuffled options, a random answer index and a random year. The random draws are
 * inputs: `rand(k)` is what `Math.random` supplies for the k-th question pushed.
 */
module Questions {
  import opened Common
  import opened Text
  import opened Lists
  import opened Syllabus

  datatype Subject = Physics | Chemistry | Biology

  function SubjectName(s: Subject): string {
    match s
    case Physics => "Physics"
    case Chemistry => "Chemistry"
    case Biology => "Biology"
  }

  /** One multiple-choice question. `answer` is meant to index `options`; `explanation` and `year` are optional. */
  datatype Question = Question(
    id: string,
    subject: Subject,
    chapter: string,
    topic: string,
    question: string,
    options: seq<string>,
    answer: int,
    explanation: Option<string>,
    year: Option<int>)

  /** `qs.filter(q => q.subject === s)`. */
  function Pool(qs: seq<Question>, s: Subject): (r: seq<Question>)
    ensures |r| <= |qs|
    ensures forall i :: 0 <= i < |r| ==> r[i].subject == s
  {
    if qs == [] then []
    else
      var init := Pool(qs[..|qs| - 1], s);
      var last := qs[|qs| - 1];
      if last.subject == s then init + [last] else init
  }

  /** Filtering distributes over concatenation. */
  lemma {:induction false} PoolAppend(a: seq<Question>, b: seq<Question>, s: Subject)
    ensures Pool(a + b, s) == Pool(a, s) + Pool(b, s)
    decreases |b|
  {
    if b == [] {
      assert a + b == a;
    } else {
      assert (a + b)[..|a + b| - 1] == a + b[..|b| - 1];
      PoolAppend(a, b[..|b| - 1], s);
    }
  }

  /** The three subject pools together hold exactly the questions of the bank. */
  lemma {:induction false} PoolsPartition(qs: seq<Question>)
    ensures multiset(Pool(qs, Biology)) + multiset(Pool(qs, Physics)) + multiset(Pool(qs, Chemistry)) == multiset(qs)
  {
    if qs != [] {
      var init, last := qs[..|qs| - 1], qs[|qs| - 1];
      PoolsPartition(init);
      assert qs == init + [last];
      assert multiset(qs) == multiset(init) + multiset{last};
      var p, c, b := Pool(init, Physics), Pool(init, Chemistry), Pool(init, Biology);
      match last.subject
      case Physics =>
        assert Pool(qs, Physics) == p + [last] && Pool(qs, Chemistry) == c && Pool(qs, Biology) == b;
      case Chemistry =>
        assert Pool(qs, Physics) == p && Pool(qs, Chemistry) == c + [last] && Pool(qs, Biology) == b;
      case Biology =>
        assert Pool(qs, Physics) == p && Pool(qs, Chemistry) == c && Pool(qs, Biology) == b + [last];
    }
  }

  /** A block whose questions all have subject `s` filters to itself; a block with none of them filters to nothing. */
  lemma {:induction false} PoolOfBlock(qs: seq<Question>, s: Subject, t: Subject)
    requires forall i :: 0 <= i < |qs| ==> qs[i].subject == t
    ensures Pool(qs, s) == if s == t then qs else []
  {
    if qs != [] {
      PoolOfBlock(qs[..|qs| - 1], s, t);
      assert qs == qs[..|qs| - 1] + [qs[|qs| - 1]];
    }
  }

  /** Taking one question out of the middle of a sequence takes it out of its pool only. */
  lemma PoolSplice(left: seq<Question>, x: Question, right: seq<Question>, s: Subject)
    ensures |Pool(left + [x] + right, s)| == |Pool(left + right, s)| + if x.subject == s then 1 else 0
  {
    PoolAppend(left + [x], right, s);
    PoolAppend(left, [x], s);
    PoolAppend(left, right, s);
    assert [x][..0] == [];
  }

  /** Rearranging a sequence keeps the size of each subject's pool. */
  lemma {:induction false} PoolPermutation(a: seq<Question>, b: seq<Question>, s: Subject)
    requires multiset(a) == multiset(b)
    ensures |Pool(a, s)| == |Pool(b, s)|
    decreases |a|
  {
    if a == [] {
      assert |b| == |multiset(b)| == 0;
    } else {
      var init, x := a[..|a| - 1], a[|a| - 1];
      assert a == init + [x];
      assert x in multiset(b);
      var j :| 0 <= j < |b| && b[j] == x;
      var left, right := b[..j], b[j + 1..];
      RemoveAtMultiset(b, j);
      assert multiset(a) == multiset(init) + multiset{x};
      assert multiset(init) == multiset(left + right);
      PoolPermutation(init, left + right, s);
      PoolMoveLast(a, left, right, s);
    }
  }

  /** Moving the last question of `a` to any position keeps the pool size, given the rest already agrees. */
  lemma PoolMoveLast(a: seq<Question>, left: seq<Question>, right: seq<Question>, s: Subject)
    requires a != [] && |Pool(a[..|a| - 1], s)| == |Pool(left + right, s)|
    ensures |Pool(a, s)| == |Pool(left + [a[|a| - 1]] + right, s)|
  {
    PoolSplice(left, a[|a| - 1], right, s);
  }

  // ---------------------------------------------------------------- the generator

  /** The subjects in the order the generator visits them. */
  const Subjects: seq<Subject> := [Physics, Chemistry, Biology]

  /** `counts[subject]`. */
  function TargetCount(s: Subject): nat {
    match s
    case Biology => 500
    case Chemistry => 250
    case Physics => 250
  }

  const BankSize: nat := 1000

  /** `questionTemplates.length`. */
  const TemplateCount: nat := 8

  /** `questionTemplates[n % questionTemplates.length]`. */
  function Template(n: nat): string {
    var j := n % TemplateCount;
    if j == 0 then "Which of the following statements is most accurate regarding {topic}?"
    else if j == 1 then "Identify the incorrect match for {topic} among the following options:"
    else if j == 2 then "Consider the following properties of {topic}. Which one is a defining characteristic?"
    else if j == 3 then "In the context of {chapter}, how does {topic} influence the overall system?"
    else if j == 4 then "A student is studying {topic}. Which observation would best support the current theory?"
    else if j == 5 then "Which of the following is the primary function/application of {topic}?"
    else if j == 6 then "Select the correct sequence of events related to {topic}:"
    else "What is the major difference between {topic} and its related concepts in {chapter}?"
  }

  /** `Math.floor(Math.random() * 4)`. */
  type AnswerDraw = x: int | 0 <= x < 4

  /** `Math.floor(Math.random() * 11)`. */
  type YearDraw = x: int | 0 <= x < 11

  /** What `Math.random` decides for one question: the option order (as a Lehmer code), the answer and the year offset. */
  datatype Draw = Draw(optionOrder: seq<nat>, answer: AnswerDraw, yearOffset: YearDraw)

  /** `subject.substring(0, 3).toUpperCase()`. */
  function IdPrefix(s: Subject): string {
    ToUpper(SubjectName(s)[..3])
  }

  lemma IdPrefixes()
    ensures IdPrefix(Physics) == "PHY" && IdPrefix(Chemistry) == "CHE" && IdPrefix(Biology) == "BIO"
  {
    assert SubjectName(Physics)[..3] == "Phy";
    assert SubjectName(Chemistry)[..3] == "Che";
    assert SubjectName(Biology)[..3] == "Bio";
  }

  /** `${prefix}_${String(i).padStart(3, '0')}`. */
  function QuestionId(s: Subject, i: nat): string {
    IdPrefix(s) + "_" + PadStart(DecimalString(i), 3, '0')
  }

  /** Distinct (subject, loop index) pairs get distinct ids. */
  lemma QuestionIdInjective(s1: Subject, i1: nat, s2: Subject, i2: nat)
    requires QuestionId(s1, i1) == QuestionId(s2, i2)
    ensures s1 == s2 && i1 == i2
  {
    var a, b := QuestionId(s1, i1), QuestionId(s2, i2);
    assert a[..3] == IdPrefix(s1) && b[..3] == IdPrefix(s2);
    IdPrefixes();
    assert s1 == s2;
    assert a[4..] == PadStart(DecimalString(i1), 3, '0');
    assert b[4..] == PadStart(DecimalString(i2), 3, '0');
    PaddedInjective(i1, i2, 3);
  }

  /** The first and the last id of a subject's block. */
  lemma QuestionIdExamples()
    ensures QuestionId(Physics, 1) == "PHY_001" && QuestionId(Biology, 500) == "BIO_500"
  {
    IdPrefixes();
    assert DecimalString(1) == "1";
    assert DecimalString(500) == DecimalString(50) + "0" == DecimalString(5) + "0" + "0" == "500";
    assert PadStart("1", 3, '0') == "001";
  }

  /** The four option texts before shuffling. */
  function BaseOptions(topic: string, chapter: string): seq<string> {
    [ "Primary characteristic of " + topic + " involving " + chapter + " principles.",
      "Secondary effect observed in " + topic + " under standard conditions.",
      "Regulatory mechanism associated with " + topic + " in biological/physical systems.",
      "None of the above statements correctly describe " + topic + "." ]
  }

  /** The word the explanation uses for loop index i. */
  function Aspect(i: nat): string {
    if i % 2 == 0 then "structural" else "functional"
  }

  function ExplanationText(topic: string, chapter: string, i: nat): string {
    "The concept of " + topic + " is central to " + chapter + ". Understanding its " + Aspect(i)
      + " aspects is crucial for NEET. This question tests your ability to differentiate between similar concepts."
  }

  /**
   * The fixed texts a generated question is made of: the template for a loop index, the four option texts for a
   * (topic, chapter) pair and the explanation for (topic, chapter, loop index). The generator is stated for any
   * wording; SourceWording is the one written in the source.
   */
  datatype Wording = Wording(
    template: nat -> string,
    options: (string, string) -> seq<string>,
    explanation: (string, string, nat) -> string)

  function SourceWording(): Wording {
    Wording(Template, BaseOptions, ExplanationText)
  }

  /** The source offers four options for every topic and chapter. */
  lemma SourceOptions(topic: string, chapter: string)
    ensures SourceWording().options(topic, chapter) == BaseOptions(topic, chapter)
    ensures |SourceWording().options(topic, chapter)| == 4
  {
  }

  /** The template with its first `{topic}` and then its first `{chapter}` filled in, plus the id tag `(Question ID: P17)`. */
  function QuestionText(template: string, s: Subject, i: nat, chapter: string, topic: string): string {
    var filled := ReplaceFirst(ReplaceFirst(template, "{topic}", topic), "{chapter}", chapter);
    filled + " (Question ID: " + [SubjectName(s)[0]] + DecimalString(i) + ")"
  }

  /** What one pass of the counted loop has chosen: subject, loop index, chapter, topic and the draws. */
  datatype Step = Step(subject: Subject, index: nat, chapter: Chapter, topic: Topic, draw: Draw)

  /** The object literal pushed for one step. */
  function MakeQuestion(w: Wording, st: Step): Question {
    Question(
      id := QuestionId(st.subject, st.index),
      subject := st.subject,
      chapter := st.chapter.name,
      topic := st.topic.name,
      question := QuestionText(w.template(st.index), st.subject, st.index, st.chapter.name, st.topic.name),
      options := Shuffle(w.options(st.topic.name, st.chapter.name), st.draw.optionOrder),
      answer := st.draw.answer,
      explanation := Some(w.explanation(st.topic.name, st.chapter.name, st.index)),
      year := Some(2015 + st.draw.yearOffset))
  }

  /** The questions of a run of steps, in order. */
  function Render(w: Wording, steps: seq<Step>): (r: seq<Question>)
    ensures |r| == |steps|
  {
    if steps == [] then [] else Render(w, steps[..|steps| - 1]) + [MakeQuestion(w, steps[|steps| - 1])]
  }

  lemma {:induction false} RenderAt(w: Wording, steps: seq<Step>, k: nat)
    requires k < |steps|
    ensures Render(w, steps)[k] == MakeQuestion(w, steps[k])
    decreases |steps|
  {
    var init := steps[..|steps| - 1];
    var r := Render(w, steps);
    assert r == Render(w, init) + [MakeQuestion(w, steps[|steps| - 1])];
    if k < |steps| - 1 {
      RenderAt(w, init, k);
      assert init[k] == steps[k];
      assert r[k] == Render(w, init)[k];
    }
  }

  lemma RenderPush(w: Wording, steps: seq<Step>, qs: seq<Question>, st: Step)
    requires qs == Render(w, steps)
    ensures qs + [MakeQuestion(w, st)] == Render(w, steps + [st])
  {
    assert (steps + [st])[..|steps|] == steps;
  }

  // ---------------------------------------------------------------- where each bank position comes from

  /** Index of the first bank position of the subject visited `si`-th. */
  function Offset(si: nat): nat
    requires si <= 3
  {
    if si == 0 then 0 else if si == 1 then 250 else if si == 2 then 500 else 1000
  }

  /** The subject of bank position k. */
  function SubjectAt(k: nat): Subject {
    if k < 250 then Physics else if k < 500 then Chemistry else Biology
  }

  /** The loop index i that produced bank position k (i starts at 1). */
  function LoopIndexAt(k: nat): nat {
    if k < 250 then k + 1 else if k < 500 then k - 249 else k - 499
  }

  /** `subject.toLowerCase()`: the syllabus key of a subject. */
  function SubjectKey(s: Subject): string {
    match s
    case Physics => "physics"
    case Chemistry => "chemistry"
    case Biology => "biology"
  }

  lemma SubjectKeyIsLower(s: Subject)
    ensures SubjectKey(s) == ToLower(SubjectName(s))
  {
  }

  /** `[...syllabus.class11, ...syllabus.class12]` for `neetSyllabus[subject.toLowerCase()]`, if that key exists. */
  function SubjectChapters(syl: Syllabus, s: Subject): Option<seq<Chapter>> {
    match Lookup(syl, SubjectKey(s))
    case None => None
    case Some(sub) => Some(AllChapters(sub))
  }

  /** Loop index i of subject s can build its question: the subject exists, it has chapters, the chosen chapter has topics. */
  predicate ReadyAt(syl: Syllabus, s: Subject, i: nat) {
    && SubjectChapters(syl, s).Some?
    && var chapters := SubjectChapters(syl, s).value;
    && |chapters| > 0
    && |chapters[i % |chapters|].topics| > 0
  }

  /** The first n steps can all build their question. */
  predicate ReadyUpTo(syl: Syllabus, n: nat) {
    forall j :: 0 <= j < n ==> ReadyAt(syl, SubjectAt(j), LoopIndexAt(j))
  }

  /** Every one of the 1000 steps can build its question. */
  predicate Generates(syl: Syllabus) {
    ReadyUpTo(syl, BankSize)
  }

  /** The step taken for bank position k: chapter `i mod |chapters|`, topic `i mod |topics|`, the k-th draws. */
  function StepAt(syl: Syllabus, rand: nat -> Draw, k: nat): Step
    requires ReadyAt(syl, SubjectAt(k), LoopIndexAt(k))
  {
    var s, i := SubjectAt(k), LoopIndexAt(k);
    var chapters := SubjectChapters(syl, s).value;
    var chapter := chapters[i % |chapters|];
    Step(s, i, chapter, chapter.topics[i % |chapter.topics|], rand(k))
  }

  /** The steps for the first n bank positions, in order. */
  function StepsUpTo(syl: Syllabus, rand: nat -> Draw, n: nat): (r: seq<Step>)
    requires ReadyUpTo(syl, n)
    ensures |r| == n
  {
    if n == 0 then [] else StepsUpTo(syl, rand, n - 1) + [StepAt(syl, rand, n - 1)]
  }

  lemma {:induction false} StepsUpToAt(syl: Syllabus, rand: nat -> Draw, n: nat, k: nat)
    requires ReadyUpTo(syl, n) && k < n
    ensures StepsUpTo(syl, rand, n)[k] == StepAt(syl, rand, k)
  {
    if k < n - 1 {
      StepsUpToAt(syl, rand, n - 1, k);
    }
  }

  /** `questionBank`: the question of every step, in the order they are pushed. */
  function Bank(w: Wording, syl: Syllabus, rand: nat -> Draw): (r: seq<Question>)
    requires Generates(syl)
    ensures |r| == BankSize
  {
    Render(w, StepsUpTo(syl, rand, BankSize))
  }

  /** `qs` is what the first |qs| steps push. */
  predicate Built(syl: Syllabus, rand: nat -> Draw, w: Wording, qs: seq<Question>) {
    ReadyUpTo(syl, |qs|) && qs == Render(w, StepsUpTo(syl, rand, |qs|))
  }

  /** Why the JavaScript module would throw while loading. */
  datatype GenError =
    | MissingSubject(subject: Subject)         // `neetSyllabus[key]` is undefined, so `.class11` throws
    | NoChapters(subject: Subject)             // `i % 0` is NaN, the chapter is undefined, `.topics` throws
    | NoTopics(subject: Subject, index: nat)   // the topic is undefined, `.name` throws

  function ErrorAt(syl: Syllabus, s: Subject, i: nat): GenError
    requires !ReadyAt(syl, s, i)
  {
    match SubjectChapters(syl, s)
    case None => MissingSubject(s)
    case Some(chapters) => if |chapters| == 0 then NoChapters(s) else NoTopics(s, i)
  }

  /** The step at bank position k is the first one that cannot build its question, and `e` says why. */
  predicate FirstFailure(syl: Syllabus, k: nat, e: GenError) {
    && k < BankSize
    && !ReadyAt(syl, SubjectAt(k), LoopIndexAt(k))
    && ReadyUpTo(syl, k)
    && e == ErrorAt(syl, SubjectAt(k), LoopIndexAt(k))
  }

  lemma FirstFailureAt(syl: Syllabus, k: nat)
    requires k < BankSize && ReadyUpTo(syl, k) && !ReadyAt(syl, SubjectAt(k), LoopIndexAt(k))
    ensures FirstFailure(syl, k, ErrorAt(syl, SubjectAt(k), LoopIndexAt(k)))
  {
  }

  /** Loop index i of the subject visited `si`-th lands at bank position Offset(si) + i - 1. */
  lemma Position(si: nat, i: nat)
    requires si < 3 && 1 <= i <= TargetCount(Subjects[si])
    ensures Offset(si) + i - 1 < BankSize
    ensures SubjectAt(Offset(si) + i - 1) == Subjects[si] && LoopIndexAt(Offset(si) + i - 1) == i
  {
  }

  /** The subject visited `si`-th fills the positions from Offset(si) up to Offset(si + 1). */
  lemma OffsetNext(si: nat)
    requires si < 3
    ensures Offset(si + 1) == Offset(si) + TargetCount(Subjects[si])
  {
  }

  /** The subject visited `si`-th has no syllabus entry, and everything before it was ready: loading fails there. */
  lemma MissingHere(syl: Syllabus, si: nat)
    requires si < 3 && ReadyUpTo(syl, Offset(si)) && SubjectChapters(syl, Subjects[si]).None?
    ensures exists k :: FirstFailure(syl, k, MissingSubject(Subjects[si]))
  {
    Position(si, 1);
    assert FirstFailure(syl, Offset(si), MissingSubject(Subjects[si]));
  }

  /** The subject visited `si`-th has no chapters, and everything before its loop index i was ready: loading fails there. */
  lemma NoChaptersHere(syl: Syllabus, si: nat, i: nat)
    requires si < 3 && 1 <= i <= TargetCount(Subjects[si]) && ReadyUpTo(syl, Offset(si) + i - 1)
    requires SubjectChapters(syl, Subjects[si]) == Some([])
    ensures exists k :: FirstFailure(syl, k, NoChapters(Subjects[si]))
  {
    Position(si, i);
    assert FirstFailure(syl, Offset(si) + i - 1, NoChapters(Subjects[si]));
  }

  /** The chapter loop index i of the subject visited `si`-th picks has no topics: loading fails there. */
  lemma NoTopicsHere(syl: Syllabus, si: nat, i: nat, chapters: seq<Chapter>)
    requires si < 3 && 1 <= i <= TargetCount(Subjects[si]) && ReadyUpTo(syl, Offset(si) + i - 1)
    requires SubjectChapters(syl, Subjects[si]) == Some(chapters)
    requires |chapters| > 0 && |chapters[i % |chapters|].topics| == 0
    ensures exists k :: FirstFailure(syl, k, NoTopics(Subjects[si], i))
  {
    Position(si, i);
    assert FirstFailure(syl, Offset(si) + i - 1, NoTopics(Subjects[si], i));
  }

  /** Loop index i of the subject visited `si`-th being ready extends the ready prefix by one position. */
  lemma ReadySnoc(syl: Syllabus, si: nat, i: nat, chapters: seq<Chapter>)
    requires si < 3 && 1 <= i <= TargetCount(Subjects[si]) && ReadyUpTo(syl, Offset(si) + i - 1)
    requires SubjectChapters(syl, Subjects[si]) == Some(chapters)
    requires |chapters| > 0 && |chapters[i % |chapters|].topics| > 0
    ensures ReadyUpTo(syl, Offset(si) + i)
  {
    Position(si, i);
  }

  /** The step the loop takes for loop index i of the subject visited `si`-th is the one for its bank position. */
  lemma StepHere(syl: Syllabus, rand: nat -> Draw, si: nat, i: nat, chapters: seq<Chapter>)
    requires si < 3 && 1 <= i <= TargetCount(Subjects[si])
    requires SubjectChapters(syl, Subjects[si]) == Some(chapters)
    requires |chapters| > 0 && |chapters[i % |chapters|].topics| > 0
    ensures ReadyAt(syl, SubjectAt(Offset(si) + i - 1), LoopIndexAt(Offset(si) + i - 1))
    ensures var chapter := chapters[i % |chapters|];
            StepAt(syl, rand, Offset(si) + i - 1)
              == Step(Subjects[si], i, chapter, chapter.topics[i % |chapter.topics|], rand(Offset(si) + i - 1))
  {
    Position(si, i);
  }

  /** Pushing the question of the step for the next bank position extends the built prefix by one. */
  lemma BuiltPush(syl: Syllabus, rand: nat -> Draw, w: Wording, qs: seq<Question>, st: Step)
    requires Built(syl, rand, w, qs) && ReadyUpTo(syl, |qs| + 1)
    requires StepAt(syl, rand, |qs|) == st
    ensures Built(syl, rand, w, qs + [MakeQuestion(w, st)])
  {
    var steps := StepsUpTo(syl, rand, |qs|);
    assert StepsUpTo(syl, rand, |qs| + 1) == steps + [st];
    RenderPush(w, steps, qs, st);
  }

  /** Pushing the question that loop index i of the subject visited `si`-th builds extends the built prefix by one. */
  lemma BuiltSnoc(syl: Syllabus, rand: nat -> Draw, w: Wording, qs: seq<Question>, si: nat, i: nat, chapters: seq<Chapter>)
    requires si < 3 && 1 <= i <= TargetCount(Subjects[si]) && |qs| == Offset(si) + i - 1
    requires Built(syl, rand, w, qs)
    requires SubjectChapters(syl, Subjects[si]) == Some(chapters)
    requires |chapters| > 0 && |chapters[i % |chapters|].topics| > 0
    ensures var chapter := chapters[i % |chapters|];
            var st := Step(Subjects[si], i, chapter, chapter.topics[i % |chapter.topics|], rand(|qs|));
            Built(syl, rand, w, qs + [MakeQuestion(w, st)])
  {
    ReadySnoc(syl, si, i, chapters);
    StepHere(syl, rand, si, i, chapters);
    var chapter := chapters[i % |chapters|];
    BuiltPush(syl, rand, w, qs, Step(Subjects[si], i, chapter, chapter.topics[i % |chapter.topics|], rand(|qs|)));
  }

  /** A built prefix of full length is the whole bank. */
  lemma BuiltBank(syl: Syllabus, rand: nat -> Draw, w: Wording, qs: seq<Question>)
    requires Built(syl, rand, w, qs) && |qs| == BankSize
    ensures Generates(syl) && qs == Bank(w, syl, rand)
  {
  }

  /** A failing position rules the whole bank out. */
  lemma FailureBlocks(syl: Syllabus, e: GenError)
    requires exists k :: FirstFailure(syl, k, e)
    ensures !Generates(syl)
  {
  }

  /**
   * `generateQuestions()` with wording `w` (the source's is SourceWording): one counted loop per subject, in the
   * order Physics, Chemistry, Biology. It succeeds exactly when every step can build its question; it then returns
   * the bank, and otherwise reports the first step that cannot.
   */
  method GenerateQuestions(w: Wording, syl: Syllabus, rand: nat -> Draw) returns (r: Result<seq<Question>, GenError>)
    ensures r.Ok? <==> Generates(syl)
    ensures r.Ok? ==> r.value == Bank(w, syl, rand)
    ensures r.Err? ==> exists k :: FirstFailure(syl, k, r.error)
  {
    var questions: seq<Question> := [];
    var si := 0;
    while si < 3
      invariant 0 <= si <= 3
      invariant |questions| == Offset(si)
      invariant Built(syl, rand, w, questions)
    {
      var pushed := GenerateForSubject(w, syl, rand, si, questions);
      if pushed.Err? {
        FailureBlocks(syl, pushed.error);
        return Err(pushed.error);
      }
      questions := pushed.value;
      si := si + 1;
    }
    BuiltBank(syl, rand, w, questions);
    return Ok(questions);
  }

  /** The `forEach` callback for the subject visited `si`-th: look its chapters up, then push its `counts[subject]` questions. */
  method GenerateForSubject(w: Wording, syl: Syllabus, rand: nat -> Draw, si: nat, questions: seq<Question>)
    returns (r: Result<seq<Question>, GenError>)
    requires si < 3 && |questions| == Offset(si)
    requires Built(syl, rand, w, questions)
    ensures r.Ok? ==> |r.value| == Offset(si + 1) && Built(syl, rand, w, r.value)
    ensures r.Err? ==> exists k :: FirstFailure(syl, k, r.error)
  {
    var subject := Subjects[si];
    SubjectKeyIsLower(subject);
    var sub := Lookup(syl, ToLower(SubjectName(subject)));
    if sub.None? {
      MissingHere(syl, si);
      return Err(MissingSubject(subject));
    }
    var allChapters := AllChapters(sub.value);
    assert SubjectChapters(syl, subject) == Some(allChapters);
    var targetCount := TargetCount(subject);
    var pushed := questions;
    var i := 1;
    while i <= targetCount
      invariant 1 <= i <= targetCount + 1
      invariant |pushed| == Offset(si) + i - 1
      invariant Built(syl, rand, w, pushed)
    {
      if |allChapters| == 0 {
        NoChaptersHere(syl, si, i);
        return Err(NoChapters(subject));
      }
      var chapterIndex := i % |allChapters|;
      var chapter := allChapters[chapterIndex];
      if |chapter.topics| == 0 {
        NoTopicsHere(syl, si, i, allChapters);
        return Err(NoTopics(subject, i));
      }
      var topicIndex := i % |chapter.topics|;
      var topic := chapter.topics[topicIndex];
      BuiltSnoc(syl, rand, w, pushed, si, i, allChapters);
      pushed := pushed + [MakeQuestion(w, Step(subject, i, chapter, topic, rand(|pushed|)))];
      i := i + 1;
    }
    OffsetNext(si);
    return Ok(pushed);
  }

  // ---------------------------------------------------------------- what the bank holds

  /** Position k of the bank holds the question of the step for position k. */
  lemma BankAt(w: Wording, syl: Syllabus, rand: nat -> Draw, k: nat)
    requires Generates(syl) && k < BankSize
    ensures Bank(w, syl, rand)[k] == MakeQuestion(w, StepAt(syl, rand, k))
  {
    RenderAt(w, StepsUpTo(syl, rand, BankSize), k);
    StepsUpToAt(syl, rand, BankSize, k);
  }

  /** Position k holds a question of the subject of its block, with the id of its subject and loop index. */
  lemma BankLayout(w: Wording, syl: Syllabus, rand: nat -> Draw, k: nat)
    requires Generates(syl) && k < BankSize
    ensures Bank(w, syl, rand)[k].subject == SubjectAt(k)
    ensures Bank(w, syl, rand)[k].id == QuestionId(SubjectAt(k), LoopIndexAt(k))
  {
    BankAt(w, syl, rand, k);
  }

  /** Position k holds the chapter `i mod |chapters|` and, within it, the topic `i mod |topics|`, for its loop index i. */
  lemma BankSelection(w: Wording, syl: Syllabus, rand: nat -> Draw, k: nat)
    requires Generates(syl) && k < BankSize
    ensures var i := LoopIndexAt(k);
            var chapters := SubjectChapters(syl, SubjectAt(k)).value;
            var chapter := chapters[i % |chapters|];
            Bank(w, syl, rand)[k].chapter == chapter.name
            && Bank(w, syl, rand)[k].topic == chapter.topics[i % |chapter.topics|].name
  {
    BankAt(w, syl, rand, k);
  }

  /** The question text is template `i mod 8` filled in with the position's topic and chapter, tagged with its loop index. */
  lemma BankText(w: Wording, syl: Syllabus, rand: nat -> Draw, k: nat)
    requires Generates(syl) && k < BankSize
    ensures var q := Bank(w, syl, rand)[k];
            q.question == QuestionText(w.template(LoopIndexAt(k)), q.subject, LoopIndexAt(k), q.chapter, q.topic)
  {
    BankAt(w, syl, rand, k);
  }

  /** The options rearrange the option texts of the question's topic and chapter, and the answer indexes one of the first four. */
  lemma BankOptions(w: Wording, syl: Syllabus, rand: nat -> Draw, k: nat)
    requires Generates(syl) && k < BankSize
    ensures var q := Bank(w, syl, rand)[k];
            && |q.options| == |w.options(q.topic, q.chapter)|
            && multiset(q.options) == multiset(w.options(q.topic, q.chapter))
            && 0 <= q.answer < 4
  {
    BankAt(w, syl, rand, k);
  }

  /** The explanation is the one for the question's topic, chapter and loop index; the year lies in 2015..2025. */
  lemma BankExplanationAndYear(w: Wording, syl: Syllabus, rand: nat -> Draw, k: nat)
    requires Generates(syl) && k < BankSize
    ensures var q := Bank(w, syl, rand)[k];
            && q.explanation == Some(w.explanation(q.topic, q.chapter, LoopIndexAt(k)))
            && q.year.Some? && 2015 <= q.year.value <= 2025
  {
    BankAt(w, syl, rand, k);
  }

  /**
   * In the program's own bank the explanation at position k uses the word "structural" exactly when k is odd
   * (loop index i = k + 1 within the Physics block, and each block is 250 long, so the parity of i follows k).
   */
  lemma BankAspect(syl: Syllabus, rand: nat -> Draw, k: nat)
    requires Generates(syl) && k < BankSize
    ensures var q := Bank(SourceWording(), syl, rand)[k];
            && q.explanation == Some(ExplanationText(q.topic, q.chapter, LoopIndexAt(k)))
            && Aspect(LoopIndexAt(k)) == (if k % 2 == 1 then "structural" else "functional")
  {
    var w := SourceWording();
    BankExplanationAndYear(w, syl, rand, k);
    AspectAt(k);
  }

  /** The aspect word at bank position k follows the parity of k: its loop index is k + 1 minus a multiple of 250. */
  lemma AspectAt(k: nat)
    ensures Aspect(LoopIndexAt(k)) == (if k % 2 == 1 then "structural" else "functional")
  {
    assert LoopIndexAt(k) % 2 == (k + 1) % 2;
  }

  /** No two positions of the bank share an id. */
  lemma BankIdsDistinct(w: Wording, syl: Syllabus, rand: nat -> Draw)
    requires Generates(syl)
    ensures forall j, k :: 0 <= j < k < BankSize ==> Bank(w, syl, rand)[j].id != Bank(w, syl, rand)[k].id
  {
    var bank := Bank(w, syl, rand);
    forall j, k | 0 <= j < k < BankSize
      ensures bank[j].id != bank[k].id
    {
      BankLayout(w, syl, rand, j);
      BankLayout(w, syl, rand, k);
      if bank[j].id == bank[k].id {
        QuestionIdInjective(SubjectAt(j), LoopIndexAt(j), SubjectAt(k), LoopIndexAt(k));
        PositionInjective(j, k);
      }
    }
  }

  /** A subject and a loop index determine the bank position. */
  lemma PositionInjective(j: nat, k: nat)
    requires SubjectAt(j) == SubjectAt(k) && LoopIndexAt(j) == LoopIndexAt(k)
    ensures j == k
  {
  }

  /** Every position holds a question of the subject of its block. */
  lemma BankSubjects(w: Wording, syl: Syllabus, rand: nat -> Draw)
    requires Generates(syl)
    ensures forall k :: 0 <= k < BankSize ==> Bank(w, syl, rand)[k].subject == SubjectAt(k)
  {
    forall k | 0 <= k < BankSize
      ensures Bank(w, syl, rand)[k].subject == SubjectAt(k)
    {
      BankLayout(w, syl, rand, k);
    }
  }

  /** Three blocks of one subject each filter back to the block of the subject asked for. */
  lemma PoolOfBlocks(a: seq<Question>, b: seq<Question>, c: seq<Question>, s: Subject)
    requires forall i :: 0 <= i < |a| ==> a[i].subject == Physics
    requires forall i :: 0 <= i < |b| ==> b[i].subject == Chemistry
    requires forall i :: 0 <= i < |c| ==> c[i].subject == Biology
    ensures Pool(a + b + c, s) == match s case Physics => a case Chemistry => b case Biology => c
  {
    PoolAppend(a + b, c, s);
    PoolAppend(a, b, s);
    PoolOfBlock(a, s, Physics);
    PoolOfBlock(b, s, Chemistry);
    PoolOfBlock(c, s, Biology);
    match s
    case Physics => assert a + [] + [] == a;
    case Chemistry => assert [] + b + [] == b;
    case Biology => assert [] + [] + c == c;
  }

  /** A sequence laid out like the bank splits into its three subject blocks. */
  lemma PoolsOfLayout(qs: seq<Question>)
    requires |qs| == BankSize && forall k :: 0 <= k < |qs| ==> qs[k].subject == SubjectAt(k)
    ensures Pool(qs, Physics) == qs[..250] && Pool(qs, Chemistry) == qs[250..500] && Pool(qs, Biology) == qs[500..]
  {
    var a, b, c := qs[..250], qs[250..500], qs[500..];
    assert qs == a + b + c;
    assert forall i :: 0 <= i < |a| ==> a[i] == qs[i] && SubjectAt(i) == Physics;
    assert forall i :: 0 <= i < |b| ==> b[i] == qs[250 + i] && SubjectAt(250 + i) == Chemistry;
    assert forall i :: 0 <= i < |c| ==> c[i] == qs[500 + i] && SubjectAt(500 + i) == Biology;
    PoolOfBlocks(a, b, c, Physics);
    PoolOfBlocks(a, b, c, Chemistry);
    PoolOfBlocks(a, b, c, Biology);
  }

  /** The bank is 250 Physics questions, then 250 Chemistry questions, then 500 Biology questions. */
  lemma BankPools(w: Wording, syl: Syllabus, rand: nat -> Draw)
    requires Generates(syl)
    ensures var bank := Bank(w, syl, rand);
            && Pool(bank, Physics) == bank[..250]
            && Pool(bank, Chemistry) == bank[250..500]
            && Pool(bank, Biology) == bank[500..]
  {
    BankSubjects(w, syl, rand);
    PoolsOfLayout(Bank(w, syl, rand));
  }
}
