/**
 * The assessment lifecycle: starting an assessment stores a record and its
 * generated questions, answers are accepted while the record is open
 * (`completed_at` unset), completion grades it once, and the history and
 * detail views read it back.
 */
module Assessments {
  import opened Wrappers
  import opened Json
  import opened Questions
  import opened Catalog
  import opened Answers
  import opened Http
  import Paging

  /** An assessment record; `completedAt` is the completion time, `None` while open. */
  datatype Assessment = Assessment(
    id: nat,
    userId: int,
    chapterId: int,
    totalQuestions: int,
    correctAnswers: nat,
    score: nat,
    timeSpent: int,
    completedAt: Option<nat>)

  predicate IsOpen(a: Assessment) {
    a.completedAt.None?
  }

  /** A stored assessment question; `options` and `knowledgePoints` hold JSON text. */
  datatype StoredQuestion = StoredQuestion(
    id: nat,
    assessmentId: nat,
    questionText: string,
    questionType: QuestionType,
    options: Option<string>,
    correctAnswer: string,
    userAnswer: Option<string>,
    isCorrect: bool,
    solution: string,
    difficulty: Difficulty,
    knowledgePoints: string,
    orderIndex: nat)

  /** What the client receives when an assessment starts: no answer and no solution. */
  datatype ClientQuestion = ClientQuestion(
    id: nat,
    questionText: string,
    questionType: QuestionType,
    options: Option<Value>,
    orderIndex: nat)

  /** A graded question as the completion reply lists it. */
  datatype ReviewQuestion = ReviewQuestion(
    id: nat,
    questionText: string,
    questionType: QuestionType,
    correctAnswer: string,
    userAnswer: Option<string>,
    isCorrect: bool,
    solution: string)

  /** A question as the detail view lists it, options parsed back. */
  datatype DetailQuestion = DetailQuestion(
    id: nat,
    questionText: string,
    questionType: QuestionType,
    options: Option<Value>,
    correctAnswer: string,
    userAnswer: Option<string>,
    isCorrect: bool,
    solution: string,
    orderIndex: nat)

  const DefaultQuestionCount: int := 10
  const NoChapter: string := "章节不存在"
  const NoTopics: string := "该章节暂无可用知识点"
  const NotOwned: string := "测评不存在或无权限"
  const AnswerAfterCompletion: string := "测评已完成，无法修改答案"
  const NoQuestion: string := "题目不存在"
  const SubmitFailed: string := "提交答案失败"
  const AlreadyCompleted: string := "测评已完成"

  // ---------------------------------------------------------------- scoring

  /** `questions.filter(q => q.is_correct).length`. */
  function CountCorrect(qs: seq<StoredQuestion>): (n: nat)
    ensures n <= |qs|
    ensures n == |qs| <==> forall k :: 0 <= k < |qs| ==> qs[k].isCorrect
    ensures n == 0 <==> forall k :: 0 <= k < |qs| ==> !qs[k].isCorrect
  {
    if qs == [] then 0
    else (if qs[0].isCorrect then 1 else 0) + CountCorrect(qs[1..])
  }

  /**
   * `Math.round(correct / total * 100)`, or 0 without questions, in exact
   * arithmetic: the integer nearest to `100 * correct / total`, halves rounded up.
   */
  function Score(correct: nat, total: nat): (r: nat)
    requires correct <= total
    ensures r <= 100
    ensures total == 0 ==> r == 0
    ensures total > 0 ==> (2 * r - 1) * total <= 200 * correct < (2 * r + 1) * total
  {
    if total == 0 then 0
    else
      RoundedBounds(correct, total);
      (200 * correct + total) / (2 * total)
  }

  lemma RoundedBounds(correct: nat, total: nat)
    requires 0 < total && correct <= total
    ensures var r := (200 * correct + total) / (2 * total);
      r <= 100 && (2 * r - 1) * total <= 200 * correct < (2 * r + 1) * total
  {
    var x, d := 200 * correct + total, 2 * total;
    var r := x / d;
    DivBounds(x, d);
    assert r * d == 2 * r * total && (r + 1) * d == 2 * r * total + 2 * total;
    assert r < 101 by {
      if r >= 101 {
        MulMonoNat(101, r, d);
      }
    }
  }

  lemma DivBounds(x: nat, d: nat)
    requires d > 0
    ensures (x / d) * d <= x < (x / d + 1) * d
  {
  }

  lemma MulMonoNat(a: nat, b: nat, c: nat)
    requires a <= b
    ensures a * c <= b * c
  {
  }

  /** All questions right gives 100. */
  lemma AllCorrectScoresFull(total: nat)
    requires total > 0
    ensures Score(total, total) == 100
  {
    var r := Score(total, total);
    if r < 100 {
      MulMonoNat(2 * r + 1, 199, total);
    }
  }

  /** With fewer than 200 questions, 100 is reached only when every question is right. */
  lemma FullScoreMeansAllCorrect(correct: nat, total: nat)
    requires correct <= total < 200 && Score(correct, total) == 100
    ensures correct == total
  {
    assert 199 * total <= 200 * correct;
    assert 200 * (total - correct) <= total;
  }

  /** The bound is needed: 199 right out of 200 is 99.5, which rounds up to 100. */
  lemma FullScoreWithOneWrong()
    ensures Score(199, 200) == 100
  {
  }

  /** No right answer gives 0. */
  lemma NoneCorrectScoresZero(total: nat)
    ensures Score(0, total) == 0
  {
  }

  // ------------------------------------------------------------ starting

  /** The record `Assessment.create` stores: nothing answered, nothing scored, open. */
  function NewAssessment(id: nat, userId: int, chapterId: int, count: int): (a: Assessment)
    ensures IsOpen(a) && a.correctAnswers == 0 && a.score == 0 && a.timeSpent == 0
    ensures a.id == id && a.userId == userId && a.chapterId == chapterId && a.totalQuestions == count
  {
    Assessment(id, userId, chapterId, count, 0, 0, 0, None)
  }

  /**
   * The record `Assessment.create` stores as the model class is declared:
   * `completed_at` is the class's creation timestamp, and Sequelize fills a
   * creation timestamp that is null at insert with the insert time, so the
   * new record is closed from the start.
   */
  function NewAssessmentAsWritten(id: nat, userId: int, chapterId: int, count: int, now: nat): (a: Assessment)
    ensures !IsOpen(a) && a.completedAt == Some(now)
    ensures a == NewAssessment(id, userId, chapterId, count).(completedAt := Some(now))
  {
    Assessment(id, userId, chapterId, count, 0, 0, 0, Some(now))
  }

  /** One generated question as `AssessmentQuestion.create` stores it. */
  function StoreQuestion(g: GeneratedQuestion, id: nat, assessmentId: nat, orderIndex: nat): StoredQuestion {
    StoredQuestion(
      id, assessmentId, g.questionText, g.questionType, OptionsText(g.options), g.correctAnswer,
      None, false, g.solution, g.difficulty, Stringify(JArr(Strings(g.knowledgePoints))), orderIndex)
  }

  /** The generated questions stored in generation order with consecutive ids. */
  function StoreAll(gs: seq<GeneratedQuestion>, assessmentId: nat, firstId: nat): (r: seq<StoredQuestion>)
    ensures |r| == |gs|
    ensures forall k :: 0 <= k < |gs| ==> r[k] == StoreQuestion(gs[k], firstId + k, assessmentId, k + 1)
  {
    seq(|gs|, k requires 0 <= k < |gs| => StoreQuestion(gs[k], firstId + k, assessmentId, k + 1))
  }

  /** Stored questions start unanswered, belong to the new assessment and are numbered 1..n. */
  lemma StoredQuestionsFresh(gs: seq<GeneratedQuestion>, assessmentId: nat, firstId: nat, k: nat)
    requires k < |gs|
    ensures var q := StoreAll(gs, assessmentId, firstId)[k];
      q.orderIndex == k + 1 && q.id == firstId + k && q.assessmentId == assessmentId &&
      q.userAnswer.None? && !q.isCorrect && q.correctAnswer == gs[k].correctAnswer &&
      (q.options.Some? <==> gs[k].options.Some?)
  {
  }

  function ClientView(q: StoredQuestion): ClientQuestion {
    ClientQuestion(q.id, q.questionText, q.questionType, ParsedOptions(q.options), q.orderIndex)
  }

  function ClientViews(qs: seq<StoredQuestion>): (r: seq<ClientQuestion>)
    ensures |r| == |qs| && forall k :: 0 <= k < |qs| ==> r[k] == ClientView(qs[k])
  {
    seq(|qs|, k requires 0 <= k < |qs| => ClientView(qs[k]))
  }

  /** The client list shows each generated question with its own text, type and options, numbered from 1. */
  lemma ClientSeesGenerated(gs: seq<GeneratedQuestion>, assessmentId: nat, firstId: nat, k: nat)
    requires k < |gs|
    ensures ClientViews(StoreAll(gs, assessmentId, firstId))[k] ==
      ClientQuestion(firstId + k, gs[k].questionText, gs[k].questionType, OptionsValue(gs[k].options), k + 1)
  {
    OptionsRoundTrip(gs[k].options);
  }

  /** The checks `startAssessment` makes before it writes anything. */
  function StartRefusal(userId: Option<int>, chapter: Option<Chapter>): (r: Option<Refusal>)
    ensures r.None? <==> SignedIn(userId) && chapter.Some? && chapter.value.topics != []
    ensures !SignedIn(userId) ==> r == Some(Refusal(StatusUnauthorized, Unauthenticated))
    ensures SignedIn(userId) && chapter.None? ==> r == Some(Refusal(StatusNotFound, NoChapter))
    ensures SignedIn(userId) && chapter.Some? && chapter.value.topics == [] ==> r == Some(Refusal(StatusBadRequest, NoTopics))
  {
    if !SignedIn(userId) then Some(Refusal(StatusUnauthorized, Unauthenticated))
    else if chapter.None? then Some(Refusal(StatusNotFound, NoChapter))
    else if chapter.value.topics == [] then Some(Refusal(StatusBadRequest, NoTopics))
    else None
  }

  /**
   * The 400 "no topics" refusal cannot be reached through the chapter
   * lookup: a chapter comes back only with at least one active topic.
   */
  lemma NoTopicsUnreachable(userId: Option<int>, catalog: seq<Chapter>, chapterId: int)
    ensures StartRefusal(userId, FindActiveChapter(catalog, chapterId)) != Some(Refusal(StatusBadRequest, NoTopics))
  {
  }

  /** An active chapter whose topics are all inactive is reported as missing (404), not as empty (400). */
  lemma ChapterWithoutTopicsNotFound(userId: Option<int>, catalog: seq<Chapter>, chapterId: int)
    requires SignedIn(userId)
    requires forall c :: c in catalog && c.id == chapterId ==> ActiveTopics(c.topics) == []
    ensures StartRefusal(userId, FindActiveChapter(catalog, chapterId)) == Some(Refusal(StatusNotFound, NoChapter))
  {
  }

  datatype StartReply =
    | StartRefused(refusal: Refusal)
    | StartFailed(details: string)
    | Started(assessmentId: nat, chapter: Chapter, totalQuestions: int, questions: seq<ClientQuestion>)

  // ------------------------------------------------------------ answering

  /** Where a submission lands: refused, or the index of the question it answers. */
  datatype Check = Refused(refusal: Refusal) | Accepted(index: nat)

  /** `Assessment.findOne({ where: { id, user_id } })`: the first record with that id and owner. */
  function FindOwned(recs: seq<Assessment>, id: int, userId: int): (r: Option<nat>)
    ensures r.Some? ==> r.value < |recs| && recs[r.value].id == id && recs[r.value].userId == userId
    ensures r.None? <==> forall k :: 0 <= k < |recs| ==> recs[k].id != id || recs[k].userId != userId
  {
    if recs == [] then None
    else if recs[0].id == id && recs[0].userId == userId then Some(0)
    else
      var r := FindOwned(recs[1..], id, userId);
      if r.Some? then Some(r.value + 1) else None
  }

  /** `AssessmentQuestion.findOne({ where: { id, assessment_id } })`. */
  function FindQuestion(qs: seq<StoredQuestion>, id: int, assessmentId: int): (r: Option<nat>)
    ensures r.Some? ==> r.value < |qs| && qs[r.value].id == id && qs[r.value].assessmentId == assessmentId
    ensures r.None? <==> forall k :: 0 <= k < |qs| ==> qs[k].id != id || qs[k].assessmentId != assessmentId
  {
    if qs == [] then None
    else if qs[0].id == id && qs[0].assessmentId == assessmentId then Some(0)
    else
      var r := FindQuestion(qs[1..], id, assessmentId);
      if r.Some? then Some(r.value + 1) else None
  }

  /**
   * The checks of `submitAnswer`, in order: a user, an owned assessment,
   * still open, a question of that assessment, and an answer to read
   * (a missing `user_answer` throws on `toLowerCase` and answers 500).
   */
  function SubmitCheck(recs: seq<Assessment>, qs: seq<StoredQuestion>, userId: Option<int>,
                       assessmentId: int, questionId: int, answer: Option<string>): (r: Check)
    ensures r.Accepted? ==>
      (SignedIn(userId) && answer.Some? && r.index < |qs| && qs[r.index].id == questionId &&
       qs[r.index].assessmentId == assessmentId &&
       exists k :: 0 <= k < |recs| && recs[k].id == assessmentId && recs[k].userId == userId.value && IsOpen(recs[k]))
    ensures !SignedIn(userId) ==> r == Refused(Refusal(StatusUnauthorized, Unauthenticated))
    ensures SignedIn(userId) && FindOwned(recs, assessmentId, userId.value).None? ==>
      r == Refused(Refusal(StatusNotFound, NotOwned))
    ensures (SignedIn(userId) && FindOwned(recs, assessmentId, userId.value).Some? &&
       !IsOpen(recs[FindOwned(recs, assessmentId, userId.value).value])) ==>
      r == Refused(Refusal(StatusBadRequest, AnswerAfterCompletion))
    ensures (SignedIn(userId) && FindOwned(recs, assessmentId, userId.value).Some? &&
       IsOpen(recs[FindOwned(recs, assessmentId, userId.value).value]) &&
       FindQuestion(qs, questionId, assessmentId).None?) ==>
      r == Refused(Refusal(StatusNotFound, NoQuestion))
    ensures (SignedIn(userId) && FindOwned(recs, assessmentId, userId.value).Some? &&
       IsOpen(recs[FindOwned(recs, assessmentId, userId.value).value]) &&
       FindQuestion(qs, questionId, assessmentId).Some? && answer.None?) ==>
      r == Refused(Refusal(StatusServerError, SubmitFailed))
    ensures r.Accepted? <==>
      SignedIn(userId) && FindOwned(recs, assessmentId, userId.value).Some? &&
      IsOpen(recs[FindOwned(recs, assessmentId, userId.value).value]) &&
      FindQuestion(qs, questionId, assessmentId).Some? && answer.Some?
    ensures r.Accepted? ==> r.index == FindQuestion(qs, questionId, assessmentId).value
  {
    if !SignedIn(userId) then Refused(Refusal(StatusUnauthorized, Unauthenticated))
    else
      var a := FindOwned(recs, assessmentId, userId.value);
      if a.None? then Refused(Refusal(StatusNotFound, NotOwned))
      else if !IsOpen(recs[a.value]) then Refused(Refusal(StatusBadRequest, AnswerAfterCompletion))
      else
        var q := FindQuestion(qs, questionId, assessmentId);
        if q.None? then Refused(Refusal(StatusNotFound, NoQuestion))
        else if answer.None? then Refused(Refusal(StatusServerError, SubmitFailed))
        else Accepted(q.value)
  }

  /** A completed (or the first matching record being completed) assessment takes no answers. */
  lemma NoAnswerAfterCompletion(recs: seq<Assessment>, qs: seq<StoredQuestion>, userId: Option<int>,
                                assessmentId: int, questionId: int, answer: Option<string>, k: nat)
    requires SignedIn(userId) && k < |recs| && recs[k].id == assessmentId && recs[k].userId == userId.value
    requires forall j :: 0 <= j < k ==> recs[j].id != assessmentId
    requires !IsOpen(recs[k])
    ensures SubmitCheck(recs, qs, userId, assessmentId, questionId, answer) ==
      Refused(Refusal(StatusBadRequest, AnswerAfterCompletion))
  {
    FirstOwned(recs, assessmentId, userId.value, k);
  }

  lemma {:induction false} FirstOwned(recs: seq<Assessment>, id: int, userId: int, k: nat)
    requires k < |recs| && recs[k].id == id && recs[k].userId == userId
    requires forall j :: 0 <= j < k ==> recs[j].id != id
    ensures FindOwned(recs, id, userId) == Some(k)
  {
    if k > 0 {
      FirstOwned(recs[1..], id, userId, k - 1);
    }
  }

  /** What a submission writes into its question: the answer and its verdict, nothing else. */
  function Answered(q: StoredQuestion, answer: string): (r: StoredQuestion)
    ensures r.userAnswer == Some(answer)
    ensures r.isCorrect <==> AnswersMatch(q.correctAnswer, answer)
    ensures r == q.(userAnswer := r.userAnswer, isCorrect := r.isCorrect)
  {
    q.(userAnswer := Some(answer), isCorrect := AnswersMatch(q.correctAnswer, answer))
  }

  datatype SubmitReply = SubmitRefused(refusal: Refusal) | Submitted(questionId: nat, isCorrect: bool)

  // ------------------------------------------------------------ completing

  /** The questions of one assessment, in store order. */
  function QuestionsOf(qs: seq<StoredQuestion>, assessmentId: nat): (r: seq<StoredQuestion>)
    ensures |r| <= |qs|
    ensures forall q :: q in r <==> q in qs && q.assessmentId == assessmentId
  {
    if qs == [] then []
    else if qs[0].assessmentId == assessmentId then [qs[0]] + QuestionsOf(qs[1..], assessmentId)
    else QuestionsOf(qs[1..], assessmentId)
  }

  /** The checks of `completeAssessment`: a user, an owned assessment, still open. */
  function CompleteCheck(recs: seq<Assessment>, userId: Option<int>, assessmentId: int): (r: Check)
    ensures r.Accepted? ==>
      (SignedIn(userId) && r.index < |recs| && recs[r.index].id == assessmentId &&
       recs[r.index].userId == userId.value && IsOpen(recs[r.index]))
    ensures !SignedIn(userId) ==> r == Refused(Refusal(StatusUnauthorized, Unauthenticated))
    ensures SignedIn(userId) && FindOwned(recs, assessmentId, userId.value).None? ==>
      r == Refused(Refusal(StatusNotFound, NotOwned))
    ensures (SignedIn(userId) && FindOwned(recs, assessmentId, userId.value).Some? &&
       !IsOpen(recs[FindOwned(recs, assessmentId, userId.value).value])) ==>
      r == Refused(Refusal(StatusBadRequest, AlreadyCompleted))
    ensures r.Accepted? <==>
      SignedIn(userId) && FindOwned(recs, assessmentId, userId.value).Some? &&
      IsOpen(recs[FindOwned(recs, assessmentId, userId.value).value])
    ensures r.Accepted? ==> r.index == FindOwned(recs, assessmentId, userId.value).value
  {
    if !SignedIn(userId) then Refused(Refusal(StatusUnauthorized, Unauthenticated))
    else
      var a := FindOwned(recs, assessmentId, userId.value);
      if a.None? then Refused(Refusal(StatusNotFound, NotOwned))
      else if !IsOpen(recs[a.value]) then Refused(Refusal(StatusBadRequest, AlreadyCompleted))
      else Accepted(a.value)
  }

  /** The update `completeAssessment` writes: counts from the questions, the score, and the completion time. */
  function Graded(a: Assessment, qs: seq<StoredQuestion>, timeSpent: int, now: nat): (r: Assessment)
    ensures !IsOpen(r) && r.completedAt == Some(now)
    ensures r.correctAnswers <= |qs| && r.score <= 100
    ensures r.correctAnswers == CountCorrect(qs) && r.score == Score(CountCorrect(qs), |qs|)
    ensures r == a.(correctAnswers := r.correctAnswers, score := r.score, timeSpent := timeSpent, completedAt := r.completedAt)
  {
    var c := CountCorrect(qs);
    a.(correctAnswers := c, score := Score(c, |qs|), timeSpent := timeSpent, completedAt := Some(now))
  }

  /** Completion happens at most once: completing the same record again is refused. */
  lemma CompletesOnce(recs: seq<Assessment>, userId: Option<int>, assessmentId: int,
                      qs: seq<StoredQuestion>, timeSpent: int, now: nat)
    requires CompleteCheck(recs, userId, assessmentId).Accepted?
    ensures var k := CompleteCheck(recs, userId, assessmentId).index;
      CompleteCheck(recs[k := Graded(recs[k], qs, timeSpent, now)], userId, assessmentId) ==
        Refused(Refusal(StatusBadRequest, AlreadyCompleted))
  {
    var k := CompleteCheck(recs, userId, assessmentId).index;
    var after := recs[k := Graded(recs[k], qs, timeSpent, now)];
    FindOwnedAfterUpdate(recs, assessmentId, userId.value, k, after[k]);
  }

  /** Once graded, the record takes no more answers. */
  lemma NoAnswerAfterGrading(recs: seq<Assessment>, userId: Option<int>, assessmentId: int,
                             qs: seq<StoredQuestion>, timeSpent: int, now: nat,
                             questionId: int, answer: Option<string>)
    requires CompleteCheck(recs, userId, assessmentId).Accepted?
    ensures var k := CompleteCheck(recs, userId, assessmentId).index;
      SubmitCheck(recs[k := Graded(recs[k], qs, timeSpent, now)], qs, userId, assessmentId, questionId, answer) ==
        Refused(Refusal(StatusBadRequest, AnswerAfterCompletion))
  {
    var k := CompleteCheck(recs, userId, assessmentId).index;
    var after := recs[k := Graded(recs[k], qs, timeSpent, now)];
    FindOwnedAfterUpdate(recs, assessmentId, userId.value, k, after[k]);
  }

  /** Updating the found record in place, keeping its id and owner, leaves the lookup where it was. */
  /**
   * With the creation timestamp on `completed_at`, an assessment just started
   * refuses every answer and its own completion, and already counts as a
   * completed one with score 0; the record `NewAssessment` describes takes
   * both.
   */
  lemma StartedAsWrittenIsClosed(recs: seq<Assessment>, qs: seq<StoredQuestion>, userId: Option<int>,
                                 id: nat, chapterId: int, count: int, now: nat,
                                 questionId: int, answer: Option<string>)
    requires SignedIn(userId)
    requires forall j | 0 <= j < |recs| :: recs[j].id != id
    ensures var started := NewAssessmentAsWritten(id, userId.value, chapterId, count, now);
      SubmitCheck(recs + [started], qs, userId, id, questionId, answer) ==
        Refused(Refusal(StatusBadRequest, AnswerAfterCompletion)) &&
      CompleteCheck(recs + [started], userId, id) == Refused(Refusal(StatusBadRequest, AlreadyCompleted)) &&
      started in CompletedBy(recs + [started], userId.value) && started.score == 0
    ensures var intended := NewAssessment(id, userId.value, chapterId, count);
      SubmitCheck(recs + [intended], qs, userId, id, questionId, answer) !=
        Refused(Refusal(StatusBadRequest, AnswerAfterCompletion)) &&
      CompleteCheck(recs + [intended], userId, id) == Accepted(|recs|) &&
      intended !in CompletedBy(recs + [intended], userId.value)
  {
    var started := NewAssessmentAsWritten(id, userId.value, chapterId, count, now);
    var intended := NewAssessment(id, userId.value, chapterId, count);
    FirstOwned(recs + [started], id, userId.value, |recs|);
    FirstOwned(recs + [intended], id, userId.value, |recs|);
  }

  lemma {:induction false} FindOwnedAfterUpdate(recs: seq<Assessment>, id: int, userId: int, k: nat, a: Assessment)
    requires FindOwned(recs, id, userId) == Some(k)
    requires a.id == id && a.userId == userId
    ensures FindOwned(recs[k := a], id, userId) == Some(k)
  {
    if k > 0 {
      assert recs[k := a][1..] == recs[1..][k - 1 := a];
      FindOwnedAfterUpdate(recs[1..], id, userId, k - 1, a);
    }
  }

  function Review(q: StoredQuestion): ReviewQuestion {
    ReviewQuestion(q.id, q.questionText, q.questionType, q.correctAnswer, q.userAnswer, q.isCorrect, q.solution)
  }

  function Reviews(qs: seq<StoredQuestion>): (r: seq<ReviewQuestion>)
    ensures |r| == |qs| && forall k :: 0 <= k < |qs| ==> r[k] == Review(qs[k])
  {
    seq(|qs|, k requires 0 <= k < |qs| => Review(qs[k]))
  }

  datatype CompleteReply =
    | CompleteRefused(refusal: Refusal)
    | Completed(assessmentId: nat, totalQuestions: nat, correctAnswers: nat, score: nat,
                timeSpent: int, questions: seq<ReviewQuestion>)

  // ------------------------------------------------------------ reading

  /** Completion time as a sort key; only completed records are sorted. */
  function CompletedTime(a: Assessment): nat {
    a.completedAt.GetOr(0)
  }

  predicate MostRecentFirst(rows: seq<Assessment>) {
    forall i, j :: 0 <= i < j < |rows| ==> CompletedTime(rows[i]) >= CompletedTime(rows[j])
  }

  /** Places `a` after every row completed later, before the first completed no later. */
  function InsertByTime(a: Assessment, rows: seq<Assessment>): (r: seq<Assessment>)
    requires MostRecentFirst(rows)
    ensures MostRecentFirst(r)
    ensures multiset(r) == multiset(rows) + multiset{a}
    ensures |r| == |rows| + 1
  {
    if rows == [] || CompletedTime(rows[0]) <= CompletedTime(a) then [a] + rows
    else
      var rest := InsertByTime(a, rows[1..]);
      InsertedAfterHead(a, rows, rest);
      [rows[0]] + rest
  }

  /** The step of `InsertByTime` that keeps the head: it still comes first and no row is lost. */
  lemma InsertedAfterHead(a: Assessment, rows: seq<Assessment>, rest: seq<Assessment>)
    requires rows != [] && CompletedTime(rows[0]) > CompletedTime(a)
    requires MostRecentFirst(rows) && MostRecentFirst(rest)
    requires multiset(rest) == multiset(rows[1..]) + multiset{a}
    ensures MostRecentFirst([rows[0]] + rest)
    ensures multiset([rows[0]] + rest) == multiset(rows) + multiset{a}
  {
    assert rows == [rows[0]] + rows[1..];
    forall x | x in rest
      ensures CompletedTime(x) <= CompletedTime(rows[0])
    {
      assert x in multiset(rest);
      if x != a {
        assert x in multiset(rows[1..]);
        var j :| 0 <= j < |rows[1..]| && rows[1..][j] == x;
        assert rows[j + 1] == x;
      }
    }
    var r := [rows[0]] + rest;
    forall i, j | 0 <= i < j < |r|
      ensures CompletedTime(r[i]) >= CompletedTime(r[j])
    {
      if i > 0 {
        assert r[i] == rest[i - 1] && r[j] == rest[j - 1];
      } else {
        assert r[j] == rest[j - 1] && r[j] in rest;
      }
    }
  }

  /** `order: [['completed_at', 'DESC']]`: the rows, most recently completed first. */
  function OrderByRecent(rows: seq<Assessment>): (r: seq<Assessment>)
    ensures MostRecentFirst(r)
    ensures multiset(r) == multiset(rows) && |r| == |rows|
  {
    if rows == [] then []
    else
      assert rows == [rows[0]] + rows[1..];
      InsertByTime(rows[0], OrderByRecent(rows[1..]))
  }

  /** `where: { user_id, completed_at: { [Op.ne]: null } }`, in store order. */
  function CompletedBy(recs: seq<Assessment>, userId: int): (r: seq<Assessment>)
    ensures |r| <= |recs|
    ensures forall a :: a in r <==> a in recs && a.userId == userId && !IsOpen(a)
  {
    if recs == [] then []
    else if recs[0].userId == userId && !IsOpen(recs[0]) then [recs[0]] + CompletedBy(recs[1..], userId)
    else CompletedBy(recs[1..], userId)
  }

  datatype HistoryReply =
    | HistoryRefused(refusal: Refusal)
    | HistoryPage(rows: seq<Assessment>, page: int, pageSize: int, total: nat, totalPages: nat)

  /**
   * `getAssessmentHistory`: one page of the user's completed assessments,
   * most recent first, with the total count and page count. `page` and
   * `pageSize` default to 1 and 10.
   */
  function History(recs: seq<Assessment>, userId: Option<int>, page: Option<int>, pageSize: Option<int>): (r: HistoryReply)
    requires page.GetOr(1) >= 1 && pageSize.GetOr(10) >= 1
    ensures !SignedIn(userId) <==> r.HistoryRefused?
    ensures r.HistoryPage? ==>
      (r.page == page.GetOr(1) && r.pageSize == pageSize.GetOr(10) &&
       r.total == |CompletedBy(recs, userId.value)| && |r.rows| <= r.pageSize &&
       r.totalPages == Paging.TotalPages(r.total, pageSize.GetOr(10)) &&
       MostRecentFirst(r.rows) &&
       forall a :: a in r.rows ==> a in recs && a.userId == userId.value && !IsOpen(a))
    ensures r.HistoryPage? ==>
      r.rows == Paging.Page(OrderByRecent(CompletedBy(recs, userId.value)), page.GetOr(1), pageSize.GetOr(10))
  {
    if !SignedIn(userId) then HistoryRefused(Refusal(StatusUnauthorized, Unauthenticated))
    else
      var p, size := page.GetOr(1), pageSize.GetOr(10);
      var all := OrderByRecent(CompletedBy(recs, userId.value));
      var rows := Paging.Page(all, p, size);
      HistoryRows(recs, userId.value, p, size);
      HistoryPage(rows, p, size, |all|, Paging.TotalPages(|all|, size))
  }

  /** Every row of a history page is a completed assessment of the user, and the page keeps the order. */
  lemma HistoryRows(recs: seq<Assessment>, userId: int, page: int, size: int)
    requires page >= 1 && size >= 1
    ensures var rows := Paging.Page(OrderByRecent(CompletedBy(recs, userId)), page, size);
      MostRecentFirst(rows) &&
      forall a :: a in rows ==> a in recs && a.userId == userId && !IsOpen(a)
  {
    var done := CompletedBy(recs, userId);
    var all := OrderByRecent(done);
    PageKeepsOrder(all, page, size);
    forall a | a in Paging.Page(all, page, size)
      ensures a in recs && a.userId == userId && !IsOpen(a)
    {
      assert a in multiset(all);
      assert a in multiset(done);
    }
  }

  lemma PageKeepsOrder(all: seq<Assessment>, page: int, size: int)
    requires page >= 1 && size >= 1 && MostRecentFirst(all)
    ensures MostRecentFirst(Paging.Page(all, page, size))
    ensures forall a :: a in Paging.Page(all, page, size) ==> a in all
  {
    var r := Paging.Page(all, page, size);
    var o := Paging.Offset(page, size);
    forall i, j | 0 <= i < j < |r| ensures CompletedTime(r[i]) >= CompletedTime(r[j]) {
      assert r[i] == all[o + i] && r[j] == all[o + j];
    }
    forall a | a in r ensures a in all {
      var i :| 0 <= i < |r| && r[i] == a;
      assert all[o + i] == a;
    }
  }

  function DetailOf(q: StoredQuestion): DetailQuestion {
    DetailQuestion(q.id, q.questionText, q.questionType, ParsedOptions(q.options), q.correctAnswer,
                   q.userAnswer, q.isCorrect, q.solution, q.orderIndex)
  }

  function Details(qs: seq<StoredQuestion>): (r: seq<DetailQuestion>)
    ensures |r| == |qs| && forall k :: 0 <= k < |qs| ==> r[k] == DetailOf(qs[k])
  {
    seq(|qs|, k requires 0 <= k < |qs| => DetailOf(qs[k]))
  }

  datatype DetailReply = DetailRefused(refusal: Refusal) | Detail(assessment: Assessment, questions: seq<DetailQuestion>)

  /** `getAssessmentDetail`: an owned record with its questions, answers and solutions included. */
  function GetDetail(recs: seq<Assessment>, qs: seq<StoredQuestion>, userId: Option<int>, id: int): (r: DetailReply)
    ensures !SignedIn(userId) ==> r == DetailRefused(Refusal(StatusUnauthorized, Unauthenticated))
    ensures SignedIn(userId) ==> (r.DetailRefused? <==> FindOwned(recs, id, userId.value).None?)
    ensures r.Detail? ==>
      (r.assessment in recs && r.assessment.id == id && r.assessment.userId == userId.value &&
       r.questions == Details(QuestionsOf(qs, r.assessment.id)))
  {
    if !SignedIn(userId) then DetailRefused(Refusal(StatusUnauthorized, Unauthenticated))
    else
      var k := FindOwned(recs, id, userId.value);
      if k.None? then DetailRefused(Refusal(StatusNotFound, NotOwned))
      else Detail(recs[k.value], Details(QuestionsOf(qs, recs[k.value].id)))
  }

  /**
   * The detail view has no completion check: for an open assessment it
   * already lists each question's correct answer and solution, which the
   * start reply withholds.
   */
  lemma DetailShowsAnswersWhileOpen(recs: seq<Assessment>, qs: seq<StoredQuestion>, userId: Option<int>, id: int, j: nat)
    requires SignedIn(userId) && FindOwned(recs, id, userId.value).Some?
    requires IsOpen(recs[FindOwned(recs, id, userId.value).value])
    requires j < |QuestionsOf(qs, id)|
    ensures var r := GetDetail(recs, qs, userId, id);
      r.Detail? && IsOpen(r.assessment) &&
      r.questions[j].correctAnswer == QuestionsOf(qs, id)[j].correctAnswer &&
      r.questions[j].solution == QuestionsOf(qs, id)[j].solution
  {
  }

  // ------------------------------------------------------------ the store

  /** The assessment and question tables; ids are assigned 1, 2, … in insertion order. */
  class AssessmentStore {
    var assessments: seq<Assessment>
    var questions: seq<StoredQuestion>

    ghost predicate Valid()
      reads this
    {
      (forall k :: 0 <= k < |assessments| ==> assessments[k].id == k + 1) &&
      (forall k :: 0 <= k < |questions| ==> questions[k].id == k + 1)
    }

    constructor ()
      ensures Valid() && assessments == [] && questions == []
    {
      assessments := [];
      questions := [];
    }

    /**
     * `startAssessment`. After the checks the record is created before the
     * questions are generated, so a failed generation leaves an open record
     * without questions and answers 500 with the generator's message.
     */
    method StartAssessment(userId: Option<int>, chapterId: int, questionCount: Option<int>,
                           catalog: seq<Chapter>, generated: Result<seq<GeneratedQuestion>, string>)
      returns (reply: StartReply)
      requires Valid()
      modifies this
      ensures Valid()
      ensures var refusal := StartRefusal(userId, FindActiveChapter(catalog, chapterId));
        refusal.Some? ==>
          reply == StartRefused(refusal.value) &&
          assessments == old(assessments) && questions == old(questions)
      ensures StartRefusal(userId, FindActiveChapter(catalog, chapterId)).None? ==>
        var id := |old(assessments)| + 1;
        assessments == old(assessments) + [NewAssessment(id, userId.value, chapterId, questionCount.GetOr(DefaultQuestionCount))] &&
        match generated
        case Err(e) => questions == old(questions) && reply == StartFailed(e)
        case Ok(gs) =>
          var stored := StoreAll(gs, id, |old(questions)| + 1);
          questions == old(questions) + stored &&
          reply == Started(id, FindActiveChapter(catalog, chapterId).value,
                           questionCount.GetOr(DefaultQuestionCount), ClientViews(stored))
    {
      var chapter := FindActiveChapter(catalog, chapterId);
      var refusal := StartRefusal(userId, chapter);
      if refusal.Some? {
        return StartRefused(refusal.value);
      }
      var count := questionCount.GetOr(DefaultQuestionCount);
      var id := |assessments| + 1;
      assessments := assessments + [NewAssessment(id, userId.value, chapterId, count)];
      match generated
      case Err(e) =>
        reply := StartFailed(e);
      case Ok(gs) =>
        var stored := StoreAll(gs, id, |questions| + 1);
        questions := questions + stored;
        reply := Started(id, chapter.value, count, ClientViews(stored));
    }

    /** `submitAnswer`: records the answer and its verdict on the one question it names. */
    method SubmitAnswer(userId: Option<int>, assessmentId: int, questionId: int, answer: Option<string>)
      returns (reply: SubmitReply)
      requires Valid()
      modifies this
      ensures Valid()
      ensures assessments == old(assessments)
      ensures var c := SubmitCheck(old(assessments), old(questions), userId, assessmentId, questionId, answer);
        match c
        case Refused(refusal) => reply == SubmitRefused(refusal) && questions == old(questions)
        case Accepted(k) =>
          questions == old(questions)[k := Answered(old(questions)[k], answer.value)] &&
          reply == Submitted(old(questions)[k].id, AnswersMatch(old(questions)[k].correctAnswer, answer.value))
    {
      var c := SubmitCheck(assessments, questions, userId, assessmentId, questionId, answer);
      match c
      case Refused(refusal) =>
        reply := SubmitRefused(refusal);
      case Accepted(k) =>
        var q := questions[k];
        questions := questions[k := Answered(q, answer.value)];
        reply := Submitted(q.id, AnswersMatch(q.correctAnswer, answer.value));
    }

    /** `completeAssessment`: grades an open, owned assessment and closes it at `now`. */
    method CompleteAssessment(userId: Option<int>, assessmentId: int, timeSpent: int, now: nat)
      returns (reply: CompleteReply)
      requires Valid()
      modifies this
      ensures Valid()
      ensures questions == old(questions)
      ensures match CompleteCheck(old(assessments), userId, assessmentId)
        case Refused(refusal) => reply == CompleteRefused(refusal) && assessments == old(assessments)
        case Accepted(k) =>
          var qs := QuestionsOf(old(questions), old(assessments)[k].id);
          assessments == old(assessments)[k := Graded(old(assessments)[k], qs, timeSpent, now)] &&
          reply == Completed(old(assessments)[k].id, |qs|, CountCorrect(qs), Score(CountCorrect(qs), |qs|),
                             timeSpent, Reviews(qs))
    {
      match CompleteCheck(assessments, userId, assessmentId)
      case Refused(refusal) =>
        reply := CompleteRefused(refusal);
      case Accepted(k) =>
        var a := assessments[k];
        var qs := QuestionsOf(questions, a.id);
        var graded := Graded(a, qs, timeSpent, now);
        assessments := assessments[k := graded];
        reply := Completed(a.id, |qs|, graded.correctAnswers, graded.score, timeSpent, Reviews(qs));
    }
  }
}
