/**
 * Scoring and mock-test assembly of src/lib/quiz.ts.
 *
 * `calculateScore` walks the questions once: an answer equal to the question's `answer` scores +4, any other
 * answer -1, a missing answer 0; it counts the three outcomes, keeps a per-subject tally and reports the score as
 * a rounded percentage of the maximum. `generateMockTest` draws 90 Biology, 45 Physics and 45 Chemistry
 * questions from shuffled pools of the bank and shuffles the result; each shuffle is a Lehmer code.
 */
module Quiz {
  import opened Common
  import opened Lists
  import opened Rounding
  import opened Syllabus
  import opened Questions

  /** `Record<string, number>`: the option index chosen for each question id; a missing id is unattempted. */
  type Answers = map<string, int>

  datatype Outcome = Unattempted | Correct | Incorrect

  /** How one question counts: no entry for its id, an entry equal to its answer, or any other entry. */
  function Classify(q: Question, answers: Answers): Outcome {
    if q.id !in answers then Unattempted
    else if answers[q.id] == q.answer then Correct
    else Incorrect
  }

  /** The outcome of every question, in order. */
  function Outcomes(qs: seq<Question>, answers: Answers): (r: seq<Outcome>)
    ensures |r| == |qs| && forall i :: 0 <= i < |qs| ==> r[i] == Classify(qs[i], answers)
  {
    seq(|qs|, i requires 0 <= i < |qs| => Classify(qs[i], answers))
  }

  /** One entry `{ correct, total }` of `subjectBreakdown`. */
  datatype Tally = Tally(correct: nat, total: nat)

  datatype Breakdown = Breakdown(biology: Tally, physics: Tally, chemistry: Tally)

  const EmptyBreakdown := Breakdown(Tally(0, 0), Tally(0, 0), Tally(0, 0))

  /** `subjectBreakdown[s]`. */
  function TallyOf(b: Breakdown, s: Subject): Tally {
    match s
    case Biology => b.biology
    case Physics => b.physics
    case Chemistry => b.chemistry
  }

  /** `subjectBreakdown[s] = t`, every other subject kept. */
  function WithTally(b: Breakdown, s: Subject, t: Tally): (r: Breakdown)
    ensures TallyOf(r, s) == t
    ensures forall u :: u != s ==> TallyOf(r, u) == TallyOf(b, u)
  {
    match s
    case Biology => b.(biology := t)
    case Physics => b.(physics := t)
    case Chemistry => b.(chemistry := t)
  }

  /** Writing a subject's tally twice leaves the second value. */
  lemma WithTallyTwice(b: Breakdown, s: Subject)
    ensures forall t1: Tally, t2: Tally :: WithTally(WithTally(b, s, t1), s, t2) == WithTally(b, s, t2)
  {
  }

  /** The `let` counters and the breakdown object of `calculateScore`. */
  datatype Counts = Counts(score: int, correct: nat, incorrect: nat, unattempted: nat, breakdown: Breakdown)

  const NoCounts := Counts(0, 0, 0, 0, EmptyBreakdown)

  /** What an outcome adds to the score: +4 for a correct answer, -1 for a wrong one, nothing for none. */
  function Points(o: Outcome): int {
    match o
    case Correct => 4
    case Incorrect => -1
    case Unattempted => 0
  }

  function Indicator(b: bool): nat {
    if b then 1 else 0
  }

  /**
   * One run of the `forEach` callback: the outcome's counter and the score move, and the question's subject gains
   * one in its total and, for a correct answer, one in its correct count.
   */
  function CountOne(c: Counts, q: Question, answers: Answers): Counts {
    var o := Classify(q, answers);
    var t := TallyOf(c.breakdown, q.subject);
    Counts(
      c.score + Points(o),
      c.correct + Indicator(o == Correct),
      c.incorrect + Indicator(o == Incorrect),
      c.unattempted + Indicator(o == Unattempted),
      WithTally(c.breakdown, q.subject, Tally(t.correct + Indicator(o == Correct), t.total + 1)))
  }

  /** What one callback run adds: +4/-1/0 to the score, one to the outcome's counter, one to the subject's total. */
  lemma CountOneEffect(c: Counts, q: Question, answers: Answers)
    ensures var d, o, t := CountOne(c, q, answers), Classify(q, answers), TallyOf(c.breakdown, q.subject);
            && d.score == c.score + (match o case Correct => 4 case Incorrect => -1 case Unattempted => 0)
            && d.correct == c.correct + (if o == Correct then 1 else 0)
            && d.incorrect == c.incorrect + (if o == Incorrect then 1 else 0)
            && d.unattempted == c.unattempted + (if o == Unattempted then 1 else 0)
            && TallyOf(d.breakdown, q.subject) == Tally(t.correct + (if o == Correct then 1 else 0), t.total + 1)
            && forall u :: u != q.subject ==> TallyOf(d.breakdown, u) == TallyOf(c.breakdown, u)
  {
  }

  /** The counters after the callback has run on every question, first to last. */
  function CountAll(qs: seq<Question>, answers: Answers): Counts {
    if qs == [] then NoCounts else CountOne(CountAll(qs[..|qs| - 1], answers), qs[|qs| - 1], answers)
  }

  /** `Math.round((score / (n * 4)) * 100)`: NaN when there are no questions. */
  datatype Percentage = NotANumber | Percent(value: int)

  function PercentageOf(score: int, n: nat): Percentage {
    if n == 0 then NotANumber else Percent(RoundHalfUp(100 * score, 4 * n))
  }

  /** The object `calculateScore` returns. */
  datatype ScoreResult = ScoreResult(
    score: int,
    correct: nat,
    incorrect: nat,
    unattempted: nat,
    breakdown: Breakdown,
    totalQuestions: nat,
    percentage: Percentage)

  function Summary(qs: seq<Question>, answers: Answers): ScoreResult {
    var c := CountAll(qs, answers);
    ScoreResult(c.score, c.correct, c.incorrect, c.unattempted, c.breakdown, |qs|, PercentageOf(c.score, |qs|))
  }

  /** `calculateScore(questions, answers)`: the `forEach` loop over the questions; neither argument is changed. */
  method CalculateScore(questions: seq<Question>, answers: Answers) returns (r: ScoreResult)
    ensures r == Summary(questions, answers)
  {
    var score := 0;
    var correct := 0;
    var incorrect := 0;
    var unattempted := 0;
    var breakdown := EmptyBreakdown;
    var i := 0;
    while i < |questions|
      invariant 0 <= i <= |questions|
      invariant Counts(score, correct, incorrect, unattempted, breakdown) == CountAll(questions[..i], answers)
    {
      var q := questions[i];
      ghost var before := breakdown;
      if q.id !in answers {
        unattempted := unattempted + 1;
      } else if answers[q.id] == q.answer {
        score := score + 4;
        correct := correct + 1;
        var t := TallyOf(breakdown, q.subject);
        breakdown := WithTally(breakdown, q.subject, t.(correct := t.correct + 1));
      } else {
        score := score - 1;
        incorrect := incorrect + 1;
      }
      var t := TallyOf(breakdown, q.subject);
      breakdown := WithTally(breakdown, q.subject, t.(total := t.total + 1));
      WithTallyTwice(before, q.subject);
      assert questions[..i + 1][..i] == questions[..i];
      assert CountAll(questions[..i + 1], answers) == CountOne(CountAll(questions[..i], answers), q, answers);
      i := i + 1;
    }
    assert questions[..i] == questions;
    r := ScoreResult(score, correct, incorrect, unattempted, breakdown, |questions|,
                     if |questions| == 0 then NotANumber else Percent(RoundHalfUp(100 * score, 4 * |questions|)));
  }

  // ---------------------------------------------------------------- what the counters mean

  /** Every question is counted exactly once, and the score is four per correct answer minus one per wrong one. */
  lemma {:induction false} CountsConserved(qs: seq<Question>, answers: Answers)
    ensures var c := CountAll(qs, answers);
            && c.correct + c.incorrect + c.unattempted == |qs|
            && c.score == 4 * c.correct - c.incorrect
  {
    if qs != [] {
      CountsConserved(qs[..|qs| - 1], answers);
      CountOneEffect(CountAll(qs[..|qs| - 1], answers), qs[|qs| - 1], answers);
    }
  }

  /** The score lies between -1 and +4 per question. */
  lemma ScoreBounds(qs: seq<Question>, answers: Answers)
    ensures -|qs| <= CountAll(qs, answers).score <= 4 * |qs|
  {
    CountsConserved(qs, answers);
  }

  /** Each counter counts the questions of its outcome: no entry, an entry equal to the answer, any other entry. */
  lemma {:induction false} CountsByOutcome(qs: seq<Question>, answers: Answers)
    ensures var c, m := CountAll(qs, answers), multiset(Outcomes(qs, answers));
            c.unattempted == m[Unattempted] && c.correct == m[Correct] && c.incorrect == m[Incorrect]
  {
    if qs != [] {
      var init, last := qs[..|qs| - 1], qs[|qs| - 1];
      var c := CountAll(init, answers);
      assert CountAll(qs, answers) == CountOne(c, last, answers);
      CountOneEffect(c, last, answers);
      CountsByOutcome(init, answers);
      OutcomesSnoc(qs, answers);
    }
  }

  lemma OutcomesSnoc(qs: seq<Question>, answers: Answers)
    requires qs != []
    ensures multiset(Outcomes(qs, answers)) == multiset(Outcomes(qs[..|qs| - 1], answers)) + multiset{Classify(qs[|qs| - 1], answers)}
  {
    assert Outcomes(qs, answers) == Outcomes(qs[..|qs| - 1], answers) + [Classify(qs[|qs| - 1], answers)];
  }

  /** A subject's tally counts the questions of that subject and the correct answers among them. */
  lemma {:induction false} BreakdownByPool(qs: seq<Question>, answers: Answers, s: Subject)
    ensures TallyOf(CountAll(qs, answers).breakdown, s).total == |Pool(qs, s)|
    ensures TallyOf(CountAll(qs, answers).breakdown, s).correct == CountAll(Pool(qs, s), answers).correct
  {
    if qs != [] {
      var init, last := qs[..|qs| - 1], qs[|qs| - 1];
      BreakdownByPool(init, answers, s);
      TallyStep(CountAll(init, answers), last, answers, s);
      if last.subject == s {
        CorrectSnoc(Pool(init, s), last, answers);
      }
    }
  }

  /** One callback run moves subject s's tally only when the question is of subject s. */
  lemma TallyStep(c: Counts, q: Question, answers: Answers, s: Subject)
    ensures var t := TallyOf(c.breakdown, s);
            TallyOf(CountOne(c, q, answers).breakdown, s)
              == if q.subject == s then Tally(t.correct + Indicator(Classify(q, answers) == Correct), t.total + 1) else t
  {
    CountOneEffect(c, q, answers);
  }

  /** One more question adds one to the correct count exactly when it is answered correctly. */
  lemma CorrectSnoc(qs: seq<Question>, q: Question, answers: Answers)
    ensures CountAll(qs + [q], answers).correct == CountAll(qs, answers).correct + Indicator(Classify(q, answers) == Correct)
  {
    assert (qs + [q])[..|qs|] == qs;
    CountOneEffect(CountAll(qs, answers), q, answers);
  }

  /** The subject tallies add up to the question count and to the correct count; no subject has more correct than total. */
  lemma {:induction false} BreakdownSums(qs: seq<Question>, answers: Answers)
    ensures var c := CountAll(qs, answers);
            var bio, phy, che := c.breakdown.biology, c.breakdown.physics, c.breakdown.chemistry;
            && bio.total + phy.total + che.total == |qs|
            && bio.correct + phy.correct + che.correct == c.correct
            && bio.correct <= bio.total && phy.correct <= phy.total && che.correct <= che.total
  {
    if qs != [] {
      BreakdownSums(qs[..|qs| - 1], answers);
      CountOneEffect(CountAll(qs[..|qs| - 1], answers), qs[|qs| - 1], answers);
    }
  }

  // ---------------------------------------------------------------- the percentage

  /** For a score between -n and 4n the percentage is the rounded 25*score/n, between -25 and 100 and not clamped at 0. */
  lemma PercentageRange(score: int, n: nat)
    requires n > 0 && -(n as int) <= score <= 4 * n
    ensures PercentageOf(score, n).Percent?
    ensures var v := PercentageOf(score, n).value;
            -25 <= v <= 100 && 8 * n * v - 4 * n <= 200 * score < 8 * n * v + 4 * n
  {
    RoundHalfUpMono(-25 * (4 * n), 100 * score, 4 * n);
    RoundHalfUpMono(100 * score, 100 * (4 * n), 4 * n);
    RoundHalfUpExact(-25, 4 * n);
    RoundHalfUpExact(100, 4 * n);
  }

  /** The result's percentage of a non-empty list lies in [-25, 100]; for no questions it is NaN. */
  lemma SummaryPercentage(qs: seq<Question>, answers: Answers)
    ensures |qs| == 0 <==> Summary(qs, answers).percentage.NotANumber?
    ensures |qs| > 0 ==> -25 <= Summary(qs, answers).percentage.value <= 100
  {
    if |qs| > 0 {
      ScoreBounds(qs, answers);
      PercentageRange(CountAll(qs, answers).score, |qs|);
    }
  }

  /** All questions answered correctly gives 100. */
  lemma AllCorrect(qs: seq<Question>, answers: Answers)
    requires |qs| > 0 && forall i :: 0 <= i < |qs| ==> Classify(qs[i], answers) == Correct
    ensures Summary(qs, answers).percentage == Percent(100)
  {
    CountsByOutcome(qs, answers);
    CountsConserved(qs, answers);
    var m := multiset(Outcomes(qs, answers));
    assert m[Incorrect] == 0 && m[Unattempted] == 0 by {
      assert Incorrect !in Outcomes(qs, answers) && Unattempted !in Outcomes(qs, answers);
    }
    RoundHalfUpExact(100, 4 * |qs|);
  }

  /** One correct, one wrong and two unattempted: score 3 of 16, 18.75 %, shown as 19. */
  lemma MixedExample(qs: seq<Question>, answers: Answers)
    requires |qs| == 4 && CountAll(qs, answers).correct == 1 && CountAll(qs, answers).incorrect == 1
    ensures Summary(qs, answers).score == 3 && Summary(qs, answers).percentage == Percent(19)
  {
    CountsConserved(qs, answers);
    RoundHalfUpUnique(300, 16, 19);
  }

  /** A single wrong answer gives -25: the percentage is not clamped at zero. */
  lemma WrongExample(qs: seq<Question>, answers: Answers)
    requires |qs| == 1 && Classify(qs[0], answers) == Incorrect
    ensures Summary(qs, answers).score == -1 && Summary(qs, answers).percentage == Percent(-25)
  {
    assert qs[..0] == [];
    assert CountAll(qs, answers) == CountOne(NoCounts, qs[0], answers);
    CountOneEffect(NoCounts, qs[0], answers);
    RoundHalfUpExact(-25, 4);
  }

  // ---------------------------------------------------------------- the mock test

  /** The four Lehmer codes standing for the four calls to `shuffle` in `generateMockTest`. */
  datatype MockOrder = MockOrder(biology: seq<nat>, physics: seq<nat>, chemistry: seq<nat>, mixed: seq<nat>)

  const BiologyPick: nat := 90
  const PhysicsPick: nat := 45
  const ChemistryPick: nat := 45

  /** `shuffle(pool).slice(0, n)` for the pool of subject s. */
  function Selection(bank: seq<Question>, s: Subject, code: seq<nat>, n: nat): seq<Question> {
    Take(Shuffle(Pool(bank, s), code), n)
  }

  /** `generateMockTest()` on the given bank: at most 90 + 45 + 45 questions (what they are: MockTestComposition). */
  function MockTest(bank: seq<Question>, order: MockOrder): (r: seq<Question>)
    ensures |r| <= BiologyPick + PhysicsPick + ChemistryPick
  {
    var bio := Selection(bank, Biology, order.biology, BiologyPick);
    var phys := Selection(bank, Physics, order.physics, PhysicsPick);
    var chem := Selection(bank, Chemistry, order.chemistry, ChemistryPick);
    Shuffle(bio + phys + chem, order.mixed)
  }

  /** A selection draws each question of the bank at most as often as the bank holds it, all of subject s. */
  lemma SelectionShape(bank: seq<Question>, s: Subject, code: seq<nat>, n: nat)
    ensures multiset(Selection(bank, s, code, n)) <= multiset(Pool(bank, s))
    ensures |Selection(bank, s, code, n)| == Min(n, |Pool(bank, s)|)
    ensures forall i :: 0 <= i < |Selection(bank, s, code, n)| ==> Selection(bank, s, code, n)[i].subject == s
  {
    var shuffled := Shuffle(Pool(bank, s), code);
    var sel := Selection(bank, s, code, n);
    TakeSubMultiset(shuffled, n);
    forall i | 0 <= i < |sel|
      ensures sel[i].subject == s
    {
      assert sel[i] in multiset(Pool(bank, s));
    }
  }

  /** Every question of the mock test comes from the bank, and no question is drawn more often than the bank holds it. */
  lemma MockTestFromBank(bank: seq<Question>, order: MockOrder)
    ensures multiset(MockTest(bank, order)) <= multiset(bank)
  {
    SelectionShape(bank, Biology, order.biology, BiologyPick);
    SelectionShape(bank, Physics, order.physics, PhysicsPick);
    SelectionShape(bank, Chemistry, order.chemistry, ChemistryPick);
    PoolsPartition(bank);
  }

  /** The mock test holds min(90, pool) Biology, min(45, pool) Physics and min(45, pool) Chemistry questions, nothing else. */
  lemma MockTestComposition(bank: seq<Question>, order: MockOrder)
    ensures var r := MockTest(bank, order);
            && |Pool(r, Biology)| == Min(BiologyPick, |Pool(bank, Biology)|)
            && |Pool(r, Physics)| == Min(PhysicsPick, |Pool(bank, Physics)|)
            && |Pool(r, Chemistry)| == Min(ChemistryPick, |Pool(bank, Chemistry)|)
            && |r| == |Pool(r, Biology)| + |Pool(r, Physics)| + |Pool(r, Chemistry)|
  {
    var bio := Selection(bank, Biology, order.biology, BiologyPick);
    var phys := Selection(bank, Physics, order.physics, PhysicsPick);
    var chem := Selection(bank, Chemistry, order.chemistry, ChemistryPick);
    SelectionShape(bank, Biology, order.biology, BiologyPick);
    SelectionShape(bank, Physics, order.physics, PhysicsPick);
    SelectionShape(bank, Chemistry, order.chemistry, ChemistryPick);
    MixedPools(bio, phys, chem, order.mixed, Biology);
    MixedPools(bio, phys, chem, order.mixed, Physics);
    MixedPools(bio, phys, chem, order.mixed, Chemistry);
  }

  /** Shuffling the three selections together keeps each subject's block intact in number. */
  lemma MixedPools(bio: seq<Question>, phys: seq<Question>, chem: seq<Question>, code: seq<nat>, s: Subject)
    requires forall i :: 0 <= i < |bio| ==> bio[i].subject == Biology
    requires forall i :: 0 <= i < |phys| ==> phys[i].subject == Physics
    requires forall i :: 0 <= i < |chem| ==> chem[i].subject == Chemistry
    ensures |Pool(Shuffle(bio + phys + chem, code), s)| == match s case Biology => |bio| case Physics => |phys| case Chemistry => |chem|
  {
    PoolPermutation(Shuffle(bio + phys + chem, code), phys + chem + bio, s);
    PoolOfBlocks(phys, chem, bio, s);
  }

  /** From the generated bank the mock test is 90 Biology, 45 Physics and 45 Chemistry questions, 180 in all, each once. */
  lemma MockTestOfBank(w: Wording, syl: Syllabus, rand: nat -> Draw, order: MockOrder)
    requires Generates(syl)
    ensures var r := MockTest(Bank(w, syl, rand), order);
            && |r| == 180
            && |Pool(r, Biology)| == 90 && |Pool(r, Physics)| == 45 && |Pool(r, Chemistry)| == 45
            && NoDup(r)
  {
    var bank := Bank(w, syl, rand);
    BankPools(w, syl, rand);
    MockTestComposition(bank, order);
    MockTestFromBank(bank, order);
    BankIdsDistinct(w, syl, rand);
    assert NoDup(bank) by {
      forall i, j | 0 <= i < j < |bank|
        ensures bank[i] != bank[j]
      {
        assert bank[i].id != bank[j].id;
      }
    }
    SubMultisetNoDup(MockTest(bank, order), bank);
  }
}
