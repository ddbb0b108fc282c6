/**
 * The progress store of src/context/AppContext.tsx: the persisted state record, its three updates and
 * `getProgress`, the share of completed topics within a subject, a chapter or the whole syllabus.
 * `Date.now()` is the parameter `now`; the syllabus is the parameter `syl`.
 */
module Progress {
  import opened Common
  import opened Text
  import opened Lists
  import opened Rounding
  import opened Syllabus

  /** The summary the quiz page records when a test is submitted (`type`, `date`, `score`, `total`). */
  datatype QuizSummary = QuizSummary(kind: string, date: string, score: int, total: int)

  /** `AppState`; `mockProgress` holds whatever the caller saved (`null` at first), of some type P. */
  datatype AppState<P> = AppState(
    completedTopics: seq<string>,
    quizHistory: seq<QuizSummary>,
    mockProgress: Option<P>,
    lastSync: int)

  /** `quizHistory` keeps the ten most recent results. */
  const HistoryLimit: nat := 10

  /** The state used when storage holds nothing. */
  function InitialState<P>(now: int): (r: AppState<P>)
    ensures Valid(r) && r.completedTopics == [] && r.quizHistory == [] && r.mockProgress.None? && r.lastSync == now
  {
    AppState([], [], None, now)
  }

  /** What every update keeps: a short history and no topic recorded twice. */
  predicate Valid<P>(s: AppState<P>) {
    |s.quizHistory| <= HistoryLimit && NoDup(s.completedTopics)
  }

  /** `toggleTopic(topicId)`: mark a topic done, or undone if it already was. */
  function ToggleTopic<P>(s: AppState<P>, topicId: string, now: int): (r: AppState<P>)
    ensures topicId in r.completedTopics <==> topicId !in s.completedTopics
    ensures forall id :: id != topicId ==> (id in r.completedTopics <==> id in s.completedTopics)
    ensures topicId !in s.completedTopics ==> r.completedTopics == s.completedTopics + [topicId]
    ensures r.quizHistory == s.quizHistory && r.mockProgress == s.mockProgress && r.lastSync == now
    ensures Valid(s) ==> Valid(r)
  {
    s.(completedTopics := Toggle(s.completedTopics, topicId), lastSync := now)
  }

  /** Toggling the same topic twice restores which topics are done; on a valid state it restores the multiset too. */
  lemma ToggleTopicTwice<P>(s: AppState<P>, topicId: string, now1: int, now2: int)
    ensures var r := ToggleTopic(ToggleTopic(s, topicId, now1), topicId, now2);
            forall id :: id in r.completedTopics <==> id in s.completedTopics
    ensures Valid(s) ==>
              multiset(ToggleTopic(ToggleTopic(s, topicId, now1), topicId, now2).completedTopics) == multiset(s.completedTopics)
  {
    ToggleTwice(s.completedTopics, topicId);
    if Valid(s) {
      ToggleTwiceNoDup(s.completedTopics, topicId);
    }
  }

  /** `addQuizResult(result)`: the newest result first, the history cut back to ten entries. */
  function AddQuizResult<P>(s: AppState<P>, result: QuizSummary, now: int): (r: AppState<P>)
    ensures |r.quizHistory| == Min(HistoryLimit, |s.quizHistory| + 1)
    ensures r.quizHistory[0] == result
    ensures r.quizHistory[1..] == s.quizHistory[..Min(HistoryLimit - 1, |s.quizHistory|)]
    ensures r.completedTopics == s.completedTopics && r.mockProgress == s.mockProgress && r.lastSync == now
    ensures NoDup(s.completedTopics) ==> Valid(r)
  {
    var h := Take([result] + s.quizHistory, HistoryLimit);
    assert h[1..] == s.quizHistory[..Min(HistoryLimit - 1, |s.quizHistory|)];
    s.(quizHistory := h, lastSync := now)
  }

  /** Adding the results `rs` one after another, first to last. */
  function AddAll<P>(s: AppState<P>, rs: seq<QuizSummary>, now: int): AppState<P> {
    if rs == [] then s else AddQuizResult(AddAll(s, rs[..|rs| - 1], now), rs[|rs| - 1], now)
  }

  /** After a run of additions the history is the newest ten of them and of what was there before, newest first. */
  lemma {:induction false} AddAllHistory<P>(s: AppState<P>, rs: seq<QuizSummary>, now: int)
    requires |s.quizHistory| <= HistoryLimit
    ensures AddAll(s, rs, now).quizHistory == Take(Reverse(rs) + s.quizHistory, HistoryLimit)
  {
    if rs != [] {
      var init, last := rs[..|rs| - 1], rs[|rs| - 1];
      AddAllSnoc(s, rs, now);
      AddAllHistory(s, init, now);
      assert rs == init + [last];
      ReverseSnocAppend(init, last, s.quizHistory);
      TakeConsTake(last, Reverse(init) + s.quizHistory, HistoryLimit);
    }
  }

  /** The last addition of a run puts its result in front of the history the earlier ones left. */
  lemma AddAllSnoc<P>(s: AppState<P>, rs: seq<QuizSummary>, now: int)
    requires rs != []
    ensures AddAll(s, rs, now).quizHistory == Take([rs[|rs| - 1]] + AddAll(s, rs[..|rs| - 1], now).quizHistory, HistoryLimit)
  {
    AddQuizResultHistory(AddAll(s, rs[..|rs| - 1], now), rs[|rs| - 1], now);
  }

  lemma ReverseSnocAppend(rs: seq<QuizSummary>, last: QuizSummary, h: seq<QuizSummary>)
    ensures Reverse(rs + [last]) + h == [last] + (Reverse(rs) + h)
  {
    ReverseSnoc(rs, last);
  }

  /** One addition puts the result in front of the history and keeps the first ten. */
  lemma AddQuizResultHistory<P>(s: AppState<P>, result: QuizSummary, now: int)
    ensures AddQuizResult(s, result, now).quizHistory == Take([result] + s.quizHistory, HistoryLimit)
  {
  }

  /** Eleven additions evict the first one: only the last ten remain, newest first. */
  lemma EleventhEvictsFirst<P>(s: AppState<P>, rs: seq<QuizSummary>, now: int)
    requires |s.quizHistory| <= HistoryLimit && |rs| == HistoryLimit + 1
    ensures AddAll(s, rs, now).quizHistory == Reverse(rs[1..])
  {
    AddAllHistory(s, rs, now);
    ReverseCons(rs);
    assert (Reverse(rs[1..]) + [rs[0]] + s.quizHistory)[..HistoryLimit] == Reverse(rs[1..]);
  }

  /** `saveMockProgress(progress)`: the saved progress replaces the old one wholesale. */
  function SaveMockProgress<P>(s: AppState<P>, progress: Option<P>, now: int): (r: AppState<P>)
    ensures r.mockProgress == progress
    ensures r.completedTopics == s.completedTopics && r.quizHistory == s.quizHistory && r.lastSync == now
    ensures Valid(s) ==> Valid(r)
  {
    s.(mockProgress := progress, lastSync := now)
  }

  // ---------------------------------------------------------------- getProgress

  /** A JavaScript string argument that `if (x)` accepts: present and not empty. */
  predicate Truthy(x: Option<string>) {
    x.Some? && x.value != ""
  }

  /** `getProgress` throws (reads `.class11` of `undefined`) when the subject has no syllabus entry. */
  datatype ProgressError = UnknownSubject(key: string)

  /** `chapters.find(c => c.id === id)`. */
  function FindChapter(chapters: seq<Chapter>, id: string): (r: Option<Chapter>)
    ensures r.None? <==> forall i :: 0 <= i < |chapters| ==> chapters[i].id != id
    ensures r.Some? ==> exists i :: 0 <= i < |chapters| && chapters[i] == r.value
                                 && r.value.id == id && forall j :: 0 <= j < i ==> chapters[j].id != id
  {
    if chapters == [] then None
    else if chapters[0].id == id then Some(chapters[0])
    else
      var r := FindChapter(chapters[1..], id);
      assert forall i :: 1 <= i < |chapters| ==> chapters[i] == chapters[1..][i - 1];
      r
  }

  /** `class11` then `class12` of every entry, in the order `Object.values` visits them. */
  function EveryChapter(syl: Syllabus): seq<Chapter> {
    if syl == [] then [] else EveryChapter(syl[..|syl| - 1]) + (syl[|syl| - 1].1.class11 + syl[|syl| - 1].1.class12)
  }

  /** The chapters `getProgress(subject, chapterId)` walks through. */
  function ScopeChapters(syl: Syllabus, subject: Option<string>, chapterId: Option<string>): Result<seq<Chapter>, ProgressError> {
    if Truthy(subject) then
      match Lookup(syl, ToLower(subject.value))
      case None => Err(UnknownSubject(ToLower(subject.value)))
      case Some(sub) => Ok(SubjectScope(sub, chapterId))
    else Ok(EveryChapter(syl))
  }

  /** Within a known subject: the chapter with the given id (none if absent), or every chapter of both classes. */
  function SubjectScope(sub: SubjectSyllabus, chapterId: Option<string>): seq<Chapter> {
    if Truthy(chapterId) then
      match FindChapter(AllChapters(sub), chapterId.value)
      case None => []
      case Some(c) => [c]
    else sub.class11 + sub.class12
  }

  /** The topics of a run of chapters, chapter by chapter. */
  function TopicsOf(chapters: seq<Chapter>): seq<Topic> {
    if chapters == [] then [] else TopicsOf(chapters[..|chapters| - 1]) + chapters[|chapters| - 1].topics
  }

  /** How many of `topics` have their id among the completed ids. */
  function CountDone(topics: seq<Topic>, completed: seq<string>): (k: nat)
    ensures k <= |topics|
  {
    if topics == [] then 0
    else CountDone(topics[..|topics| - 1], completed) + if topics[|topics| - 1].id in completed then 1 else 0
  }

  /** `totalTopics === 0 ? 0 : Math.round((completedCount / totalTopics) * 100)`. */
  function ProgressPercent(done: nat, total: nat): int {
    if total == 0 then 0 else RoundHalfUp(100 * done, total)
  }

  /** The value `getProgress(subject, chapterId)` returns for the given completed ids. */
  function ProgressOf(syl: Syllabus, completed: seq<string>, subject: Option<string>, chapterId: Option<string>): Result<int, ProgressError> {
    match ScopeChapters(syl, subject, chapterId)
    case Err(e) => Err(e)
    case Ok(chapters) =>
      var topics := TopicsOf(chapters);
      Ok(ProgressPercent(CountDone(topics, completed), |topics|))
  }

  /** `processChapter(chapter)`: one count per topic, one more whenever its id is among the completed ids. */
  method ProcessChapter(chapter: Chapter, completed: seq<string>, total: nat, done: nat) returns (total': nat, done': nat)
    ensures total' == total + |chapter.topics|
    ensures done' == done + CountDone(chapter.topics, completed)
  {
    total', done' := total, done;
    var i := 0;
    while i < |chapter.topics|
      invariant 0 <= i <= |chapter.topics|
      invariant total' == total + i
      invariant done' == done + CountDone(chapter.topics[..i], completed)
    {
      var topic := chapter.topics[i];
      total' := total' + 1;
      if topic.id in completed {
        done' := done' + 1;
      }
      assert chapter.topics[..i + 1][..i] == chapter.topics[..i];
      i := i + 1;
    }
    assert chapter.topics[..i] == chapter.topics;
  }

  /** `chapters.forEach(processChapter)`. */
  method ProcessChapters(chapters: seq<Chapter>, completed: seq<string>, total: nat, done: nat) returns (total': nat, done': nat)
    ensures total' == total + |TopicsOf(chapters)|
    ensures done' == done + CountDone(TopicsOf(chapters), completed)
  {
    total', done' := total, done;
    var i := 0;
    while i < |chapters|
      invariant 0 <= i <= |chapters|
      invariant total' == total + |TopicsOf(chapters[..i])|
      invariant done' == done + CountDone(TopicsOf(chapters[..i]), completed)
    {
      assert chapters[..i + 1][..i] == chapters[..i];
      CountDoneAppend(TopicsOf(chapters[..i]), chapters[i].topics, completed);
      total', done' := ProcessChapter(chapters[i], completed, total', done');
      i := i + 1;
    }
    assert chapters[..i] == chapters;
  }

  /** `getProgress(subject, chapterId)` against the current completed ids. */
  method GetProgress<P>(syl: Syllabus, s: AppState<P>, subject: Option<string>, chapterId: Option<string>)
    returns (r: Result<int, ProgressError>)
    ensures r == ProgressOf(syl, s.completedTopics, subject, chapterId)
  {
    var total, done;
    if Truthy(subject) {
      var sub := Lookup(syl, ToLower(subject.value));
      if sub.None? {
        return Err(UnknownSubject(ToLower(subject.value)));
      }
      total, done := ProcessSubject(sub.value, chapterId, s.completedTopics);
    } else {
      total, done := ProcessSyllabus(syl, s.completedTopics);
    }
    return Ok(ProgressPercent(done, total));
  }

  /** The subject branch of `getProgress`: one chapter when an id is given, else `class11` then `class12`. */
  method ProcessSubject(sub: SubjectSyllabus, chapterId: Option<string>, completed: seq<string>) returns (total: nat, done: nat)
    ensures total == |TopicsOf(SubjectScope(sub, chapterId))|
    ensures done == CountDone(TopicsOf(SubjectScope(sub, chapterId)), completed)
  {
    total, done := 0, 0;
    if Truthy(chapterId) {
      var chapter := FindChapter(AllChapters(sub), chapterId.value);
      if chapter.Some? {
        total, done := ProcessChapter(chapter.value, completed, total, done);
        assert TopicsOf([chapter.value]) == chapter.value.topics;
      }
    } else {
      total, done := ProcessChapters(sub.class11, completed, total, done);
      total, done := ProcessChapters(sub.class12, completed, total, done);
      TopicsAppend(sub.class11, sub.class12);
      CountDoneAppend(TopicsOf(sub.class11), TopicsOf(sub.class12), completed);
    }
  }

  /** `Object.values(neetSyllabus).forEach(sub => { sub.class11.forEach(processChapter); sub.class12.forEach(processChapter); })`. */
  method ProcessSyllabus(syl: Syllabus, completed: seq<string>) returns (total: nat, done: nat)
    ensures total == |TopicsOf(EveryChapter(syl))|
    ensures done == CountDone(TopicsOf(EveryChapter(syl)), completed)
  {
    total, done := 0, 0;
    var j := 0;
    while j < |syl|
      invariant 0 <= j <= |syl|
      invariant total == |TopicsOf(EveryChapter(syl[..j]))|
      invariant done == CountDone(TopicsOf(EveryChapter(syl[..j])), completed)
    {
      var sub := syl[j].1;
      total, done := ProcessChapters(sub.class11, completed, total, done);
      total, done := ProcessChapters(sub.class12, completed, total, done);
      SyllabusStep(syl, j, completed);
      j := j + 1;
    }
    assert syl[..j] == syl;
  }

  /** One more syllabus entry adds the topics of its `class11` and then its `class12` chapters. */
  lemma SyllabusStep(syl: Syllabus, j: nat, completed: seq<string>)
    requires j < |syl|
    ensures var before, sub := TopicsOf(EveryChapter(syl[..j])), syl[j].1;
            && |TopicsOf(EveryChapter(syl[..j + 1]))| == |before| + |TopicsOf(sub.class11)| + |TopicsOf(sub.class12)|
            && CountDone(TopicsOf(EveryChapter(syl[..j + 1])), completed)
               == CountDone(before, completed) + CountDone(TopicsOf(sub.class11), completed) + CountDone(TopicsOf(sub.class12), completed)
  {
    var sub := syl[j].1;
    var before := EveryChapter(syl[..j]);
    assert syl[..j + 1][..j] == syl[..j];
    assert EveryChapter(syl[..j + 1]) == before + (sub.class11 + sub.class12);
    TopicsAppend(before, sub.class11 + sub.class12);
    TopicsAppend(sub.class11, sub.class12);
    CountDoneAppend(TopicsOf(before), TopicsOf(sub.class11 + sub.class12), completed);
    CountDoneAppend(TopicsOf(sub.class11), TopicsOf(sub.class12), completed);
  }

  lemma {:induction false} TopicsAppend(a: seq<Chapter>, b: seq<Chapter>)
    ensures TopicsOf(a + b) == TopicsOf(a) + TopicsOf(b)
    decreases |b|
  {
    if b == [] {
      assert a + b == a;
    } else {
      assert (a + b)[..|a + b| - 1] == a + b[..|b| - 1];
      TopicsAppend(a, b[..|b| - 1]);
    }
  }

  lemma {:induction false} CountDoneAppend(a: seq<Topic>, b: seq<Topic>, completed: seq<string>)
    ensures CountDone(a + b, completed) == CountDone(a, completed) + CountDone(b, completed)
    decreases |b|
  {
    if b == [] {
      assert a + b == a;
    } else {
      assert (a + b)[..|a + b| - 1] == a + b[..|b| - 1];
      CountDoneAppend(a, b[..|b| - 1], completed);
    }
  }

  // ---------------------------------------------------------------- what getProgress promises

  /** The progress of a scope is a percentage: between 0 and 100, and 0 for a scope without topics. */
  lemma ProgressRange(syl: Syllabus, completed: seq<string>, subject: Option<string>, chapterId: Option<string>)
    ensures var r := ProgressOf(syl, completed, subject, chapterId);
            && (r.Ok? ==> 0 <= r.value <= 100)
            && (r.Ok? && |TopicsOf(ScopeChapters(syl, subject, chapterId).value)| == 0 ==> r.value == 0)
  {
    var scope := ScopeChapters(syl, subject, chapterId);
    if scope.Ok? {
      var topics := TopicsOf(scope.value);
      var done := CountDone(topics, completed);
      if |topics| > 0 {
        RoundHalfUpMono(0, 100 * done, |topics|);
        RoundHalfUpMono(100 * done, 100 * |topics|, |topics|);
        RoundHalfUpExact(0, |topics|);
        RoundHalfUpExact(100, |topics|);
      }
    }
  }

  /** Each topic of the scope counts once however often its id was recorded, and ids outside the scope count not at all. */
  lemma {:induction false} CountDoneIgnoresMultiplicity(topics: seq<Topic>, c1: seq<string>, c2: seq<string>)
    requires forall i :: 0 <= i < |topics| ==> (topics[i].id in c1 <==> topics[i].id in c2)
    ensures CountDone(topics, c1) == CountDone(topics, c2)
  {
    if topics != [] {
      CountDoneIgnoresMultiplicity(topics[..|topics| - 1], c1, c2);
    }
  }

  /** Every topic of the scope done gives 100. */
  lemma {:induction false} AllDone(topics: seq<Topic>, completed: seq<string>)
    requires forall i :: 0 <= i < |topics| ==> topics[i].id in completed
    ensures CountDone(topics, completed) == |topics|
    ensures |topics| > 0 ==> ProgressPercent(CountDone(topics, completed), |topics|) == 100
  {
    if topics != [] {
      AllDone(topics[..|topics| - 1], completed);
      RoundHalfUpExact(100, |topics|);
    }
  }

  /** An unknown subject key is an error, whatever the chapter. */
  lemma UnknownSubjectFails(syl: Syllabus, completed: seq<string>, subject: string, chapterId: Option<string>)
    requires subject != "" && Lookup(syl, ToLower(subject)).None?
    ensures ProgressOf(syl, completed, Some(subject), chapterId) == Err(UnknownSubject(ToLower(subject)))
  {
  }

  /** A chapter id that no chapter of the subject has covers no topics and yields 0. */
  lemma UnknownChapterIsZero(syl: Syllabus, completed: seq<string>, subject: string, chapterId: string)
    requires subject != "" && chapterId != "" && Lookup(syl, ToLower(subject)).Some?
    requires var chapters := AllChapters(Lookup(syl, ToLower(subject)).value);
             forall i :: 0 <= i < |chapters| ==> chapters[i].id != chapterId
    ensures ProgressOf(syl, completed, Some(subject), Some(chapterId)) == Ok(0)
  {
    assert TopicsOf([]) == [];
  }

  /** A chapter scope covers exactly the first chapter of `class11 ++ class12` that carries the id. */
  lemma ChapterScope(syl: Syllabus, completed: seq<string>, subject: string, chapterId: string, i: nat)
    requires subject != "" && chapterId != "" && Lookup(syl, ToLower(subject)).Some?
    requires var chapters := AllChapters(Lookup(syl, ToLower(subject)).value);
             i < |chapters| && chapters[i].id == chapterId && forall j :: 0 <= j < i ==> chapters[j].id != chapterId
    ensures var chapter := AllChapters(Lookup(syl, ToLower(subject)).value)[i];
            ProgressOf(syl, completed, Some(subject), Some(chapterId))
              == Ok(ProgressPercent(CountDone(chapter.topics, completed), |chapter.topics|))
  {
    var chapters := AllChapters(Lookup(syl, ToLower(subject)).value);
    var found := FindChapter(chapters, chapterId);
    assert found == Some(chapters[i]);
    assert TopicsOf([chapters[i]]) == chapters[i].topics;
  }
}
