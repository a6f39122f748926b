/**
 * Learning plans: choosing the chapters a new plan focuses on from the
 * user's weak assessment results, shaping one task per focus chapter,
 * updating a task's status, and the progress summary of the active plan.
 * Plans and tasks are the tables held by `LearningStore`; the plan text from
 * the generator and the clock are inputs.
 */
module Learning {
  import opened Wrappers
  import opened Seqs
  import opened Catalog
  import opened Http
  import opened Rates
  import Accounts
  import Assessments
  import Json

  datatype TaskStatus = Pending | InProgress | Completed
  datatype Priority = Low | Medium | High
  datatype PlanStatus = PlanActive | PlanCompleted | PlanPaused

  datatype Plan = Plan(
    id: nat,
    userId: int,
    title: string,
    description: string,
    startDate: nat,
    endDate: nat,
    targetScore: Option<int>,
    status: PlanStatus)

  datatype Task = Task(
    id: nat,
    planId: nat,
    chapterId: nat,
    title: string,
    description: string,
    targetDate: nat,
    estimatedTime: nat,
    status: TaskStatus,
    priority: Priority,
    completedAt: Option<nat>)

  /** Times are milliseconds, as `Date.now()` counts them. */
  const DayMs: nat := 24 * 60 * 60 * 1000
  const WeekMs: nat := 7 * DayMs
  /** A plan runs for 30 days. */
  const PlanDays: nat := 30
  /** A completed assessment scoring below this marks its chapter as weak. */
  const WeakBelow: nat := 70
  /** How many recent assessments the weak-chapter analysis reads. */
  const AnalysedAssessments: nat := 10
  /** How many weak chapters, or fallback chapters, a plan focuses on. */
  const FocusLimit: nat := 3
  /** How many recent assessments the progress average reads. */
  const AveragedAssessments: nat := 5
  /** Every task is estimated at 10 hours. */
  const TaskHours: nat := 10

  const PlanTitleSuffix: string := "的个性化数学学习计划"
  const TaskTitlePrefix: string := "掌握"
  const TaskDescriptionPrefix: string := "系统学习和练习"
  const TaskDescriptionSuffix: string := "相关知识点"
  const NoTask: string := "学习任务不存在或无权限"
  const TaskUpdateFailed: string := "更新任务状态失败"

  // ------------------------------------------------------------ weak chapters

  /** The user's `limit` most recently completed assessments, newest first. */
  function Recent(recs: seq<Assessments.Assessment>, userId: int, limit: nat): (r: seq<Assessments.Assessment>)
    ensures |r| <= limit
    ensures Assessments.MostRecentFirst(r)
    ensures forall a | a in r :: a in recs && a.userId == userId && !Assessments.IsOpen(a)
    ensures var n := |Assessments.CompletedBy(recs, userId)|; |r| == if n <= limit then n else limit
    ensures forall a, b | a in r && b in Assessments.CompletedBy(recs, userId) && b !in r ::
      Assessments.CompletedTime(b) <= Assessments.CompletedTime(a)
  {
    var done := Assessments.CompletedBy(recs, userId);
    var all := Assessments.OrderByRecent(done);
    var r := Take(all, limit);
    forall a | a in r
      ensures a in done
    {
      assert a in all;
      assert a in multiset(all);
    }
    PrefixKeepsNewest(all, limit);
    forall b | b in done
      ensures b in all
    {
      assert b in multiset(done);
    }
    r
  }

  /** A prefix of a most-recent-first sequence leaves out nothing completed later than what it keeps. */
  lemma PrefixKeepsNewest(all: seq<Assessments.Assessment>, limit: nat)
    requires Assessments.MostRecentFirst(all)
    ensures forall a, b | a in Take(all, limit) && b in all && b !in Take(all, limit) ::
      Assessments.CompletedTime(b) <= Assessments.CompletedTime(a)
  {
    var r := Take(all, limit);
    forall a, b | a in r && b in all && b !in r
      ensures Assessments.CompletedTime(b) <= Assessments.CompletedTime(a)
    {
      var i :| 0 <= i < |r| && r[i] == a;
      var j :| 0 <= j < |all| && all[j] == b;
      assert i < j;
    }
  }

  /** `a.chapter?.name`: the name of the chapter an assessment belongs to, if there is one. */
  function ChapterName(chapters: seq<Chapter>, a: Assessments.Assessment): Option<string> {
    var c := FindChapter(chapters, a.chapterId);
    if c.Some? then Some(c.value.name) else None
  }

  /** The rows scoring below 70 whose chapter has a non-empty name, mapped to that name, in row order. */
  function WeakNames(rows: seq<Assessments.Assessment>, chapters: seq<Chapter>): (r: seq<string>)
    ensures |r| <= |rows|
    ensures forall n | n in r :: n != ""
    ensures forall n :: n in r <==>
      exists a | a in rows :: a.score < WeakBelow && ChapterName(chapters, a) == Some(n) && n != ""
  {
    if rows == [] then []
    else
      var rest := WeakNames(rows[1..], chapters);
      var name := ChapterName(chapters, rows[0]);
      if rows[0].score < WeakBelow && name.Some? && name.value != "" then [name.value] + rest else rest
  }

  /** The weak chapters of a user: those of the 10 most recent completed assessments. */
  function WeakChapters(recs: seq<Assessments.Assessment>, userId: int, chapters: seq<Chapter>): (r: seq<string>)
    ensures |r| <= AnalysedAssessments
    ensures forall n :: n in r <==>
      exists a | a in Recent(recs, userId, AnalysedAssessments) ::
        a.score < WeakBelow && ChapterName(chapters, a) == Some(n) && n != ""
  {
    WeakNames(Recent(recs, userId, AnalysedAssessments), chapters)
  }

  /**
   * `focus_chapters || weakChapters.slice(0, 3)`, and when that is empty the
   * first three active chapters of the user's grade appended to it.
   */
  function FocusChapters(requested: Option<seq<string>>, weak: seq<string>, gradeNames: seq<string>): (r: seq<string>)
    ensures requested.Some? && requested.value != [] ==> r == requested.value
    ensures requested.None? && weak != [] ==> r == Take(weak, FocusLimit)
    ensures (requested.Some? && requested.value == []) || (requested.None? && weak == []) ==>
      r == Take(gradeNames, FocusLimit)
    ensures requested.None? ==> |r| <= FocusLimit
  {
    var chosen := if requested.Some? then requested.value else Take(weak, FocusLimit);
    if chosen == [] then Take(gradeNames, FocusLimit) else chosen
  }

  /** Without a request, every focus chapter is a weak chapter or an active chapter of the grade. */
  lemma FocusFromWeakOrGrade(weak: seq<string>, gradeNames: seq<string>)
    ensures forall n | n in FocusChapters(None, weak, gradeNames) :: n in weak || n in gradeNames
    ensures weak != [] ==> forall n | n in FocusChapters(None, weak, gradeNames) :: n in weak
  {
    var r := FocusChapters(None, weak, gradeNames);
    forall n | n in r
      ensures n in weak || n in gradeNames
      ensures weak != [] ==> n in weak
    {
      var i :| 0 <= i < |r| && r[i] == n;
      if weak != [] {
        assert r[i] == weak[i];
      } else {
        assert r[i] == gradeNames[i];
      }
    }
  }

  // ------------------------------------------------------------ plan and tasks

  /** The plan record: active, titled after the user, ending 30 days after it starts. */
  function NewPlan(id: nat, userId: int, userName: string, content: string, targetScore: Option<int>, now: nat): (p: Plan)
    ensures p.status == PlanActive && p.startDate == now && p.endDate == now + PlanDays * DayMs
    ensures p.title == userName + PlanTitleSuffix && p.description == content
    ensures p.id == id && p.userId == userId && p.targetScore == targetScore
  {
    Plan(id, userId, userName + PlanTitleSuffix, content, now, now + PlanDays * DayMs, targetScore, PlanActive)
  }

  /** The task for the focus chapter at `index`, found in the catalogue as `chapterId`. */
  function TaskFor(name: string, index: nat, chapterId: nat, planId: nat, id: nat, now: nat): (t: Task)
    ensures t.targetDate == now + (index + 1) * WeekMs
    ensures t.priority == High <==> index == 0
    ensures t.priority == Medium <==> index != 0
    ensures t.estimatedTime == TaskHours && t.status == Pending && t.completedAt == None
    ensures t.title == TaskTitlePrefix + name && t.description == TaskDescriptionPrefix + name + TaskDescriptionSuffix
    ensures t.id == id && t.planId == planId && t.chapterId == chapterId
  {
    Task(id, planId, chapterId, TaskTitlePrefix + name, TaskDescriptionPrefix + name + TaskDescriptionSuffix,
         now + (index + 1) * WeekMs, TaskHours, Pending, if index == 0 then High else Medium, None)
  }

  /**
   * The tasks for `focus[from..]`: one per chapter name that an active
   * chapter carries, numbered from `firstId`; other names make no task.
   */
  function TasksFrom(focus: seq<string>, from: nat, chapters: seq<Chapter>, planId: nat, firstId: nat, now: nat): (r: seq<Task>)
    requires from <= |focus|
    ensures |r| <= |focus| - from
    ensures forall k | 0 <= k < |r| :: r[k].id == firstId + k && r[k].planId == planId
    ensures forall t | t in r :: t.status == Pending && t.completedAt == None && t.estimatedTime == TaskHours
    decreases |focus| - from
  {
    if from == |focus| then []
    else
      var c := FindChapterNamed(chapters, focus[from]);
      if c.Some? then
        [TaskFor(focus[from], from, c.value.id, planId, firstId, now)] + TasksFrom(focus, from + 1, chapters, planId, firstId + 1, now)
      else TasksFrom(focus, from + 1, chapters, planId, firstId, now)
  }

  /** Every task was made for some focus index whose name an active chapter carries. */
  lemma {:induction false} TaskHasIndex(focus: seq<string>, from: nat, chapters: seq<Chapter>, planId: nat, firstId: nat, now: nat, t: Task)
    requires from <= |focus|
    requires t in TasksFrom(focus, from, chapters, planId, firstId, now)
    ensures exists i | from <= i < |focus| ::
      FindChapterNamed(chapters, focus[i]).Some? &&
      t == TaskFor(focus[i], i, FindChapterNamed(chapters, focus[i]).value.id, planId, t.id, now)
    decreases |focus| - from
  {
    var c := FindChapterNamed(chapters, focus[from]);
    var rest := TasksFrom(focus, from + 1, chapters, planId, if c.Some? then firstId + 1 else firstId, now);
    if c.Some? && t == TaskFor(focus[from], from, c.value.id, planId, firstId, now) {
    } else {
      assert t in rest;
      TaskHasIndex(focus, from + 1, chapters, planId, if c.Some? then firstId + 1 else firstId, now, t);
    }
  }

  /** Every focus index whose name an active chapter carries gets its task. */
  lemma {:induction false} IndexHasTask(focus: seq<string>, from: nat, chapters: seq<Chapter>, planId: nat, firstId: nat, now: nat, i: nat)
    requires from <= i < |focus|
    requires FindChapterNamed(chapters, focus[i]).Some?
    ensures exists t | t in TasksFrom(focus, from, chapters, planId, firstId, now) ::
      t == TaskFor(focus[i], i, FindChapterNamed(chapters, focus[i]).value.id, planId, t.id, now)
    decreases |focus| - from
  {
    var c := FindChapterNamed(chapters, focus[from]);
    var next := if c.Some? then firstId + 1 else firstId;
    var r := TasksFrom(focus, from, chapters, planId, firstId, now);
    if i == from {
      assert r[0] == TaskFor(focus[i], i, c.value.id, planId, firstId, now);
    } else {
      IndexHasTask(focus, from + 1, chapters, planId, next, now, i);
      var t :| t in TasksFrom(focus, from + 1, chapters, planId, next, now) &&
        t == TaskFor(focus[i], i, FindChapterNamed(chapters, focus[i]).value.id, planId, t.id, now);
      assert t in r;
    }
  }

  /**
   * The tasks of a new plan: the one for focus index 0, if any, is the only
   * high-priority task, and the task for index i is due i + 1 weeks out.
   */
  lemma PlanTaskShape(focus: seq<string>, chapters: seq<Chapter>, planId: nat, firstId: nat, now: nat, t: Task)
    requires t in TasksFrom(focus, 0, chapters, planId, firstId, now)
    ensures t.priority == High <==> t.targetDate == now + WeekMs
    ensures t.priority == High || t.priority == Medium
    ensures exists i | 0 <= i < |focus| :: t.targetDate == now + (i + 1) * WeekMs && t.title == TaskTitlePrefix + focus[i]
  {
    TaskHasIndex(focus, 0, chapters, planId, firstId, now, t);
    var i :| 0 <= i < |focus| &&
      FindChapterNamed(chapters, focus[i]).Some? &&
      t == TaskFor(focus[i], i, FindChapterNamed(chapters, focus[i]).value.id, planId, t.id, now);
    if i != 0 {
      assert (i + 1) * WeekMs > WeekMs;
    }
  }

  // ------------------------------------------------------------ task status

  /** The status column's text, as the request body carries it. */
  function StatusFromText(s: string): (r: Option<TaskStatus>)
    ensures r == Some(Pending) <==> s == "pending"
    ensures r == Some(InProgress) <==> s == "in_progress"
    ensures r == Some(Completed) <==> s == "completed"
  {
    if s == "pending" then Some(Pending)
    else if s == "in_progress" then Some(InProgress)
    else if s == "completed" then Some(Completed)
    else None
  }

  /** `task.update({ status, completed_at })`: the completion time is set only by completing. */
  function WithStatus(t: Task, status: TaskStatus, now: nat): (r: Task)
    ensures r.status == status
    ensures status == Completed ==> r.completedAt == Some(now)
    ensures status != Completed ==> r.completedAt == t.completedAt
    ensures r == t.(status := status, completedAt := r.completedAt)
  {
    t.(status := status, completedAt := if status == Completed then Some(now) else t.completedAt)
  }

  /** A task carries a completion time once it has been completed, whatever its status later becomes. */
  lemma CompletionTimeSticks(t: Task, s1: TaskStatus, s2: TaskStatus, t1: nat, t2: nat)
    ensures (s1 == Completed || t.completedAt.Some?) ==> WithStatus(WithStatus(t, s1, t1), s2, t2).completedAt.Some?
    ensures s2 != Completed ==> WithStatus(WithStatus(t, s1, t1), s2, t2).completedAt == WithStatus(t, s1, t1).completedAt
  {
  }

  /** The plan's owner, if the plan exists. */
  function PlanOwner(plans: seq<Plan>, planId: int): (r: Option<int>)
    ensures r.None? <==> forall p | p in plans :: p.id != planId
    ensures r.Some? ==> exists p | p in plans :: p.id == planId && p.userId == r.value
  {
    if plans == [] then None
    else if plans[0].id == planId then Some(plans[0].userId)
    else PlanOwner(plans[1..], planId)
  }

  /** The task with that id whose plan belongs to the user, as the ownership-checking query finds it. */
  function OwnedTask(plans: seq<Plan>, tasks: seq<Task>, taskId: int, userId: int): (r: Option<nat>)
    ensures r.None? <==>
      forall k | 0 <= k < |tasks| :: tasks[k].id != taskId || PlanOwner(plans, tasks[k].planId) != Some(userId)
    ensures r.Some? ==>
      r.value < |tasks| && tasks[r.value].id == taskId && PlanOwner(plans, tasks[r.value].planId) == Some(userId)
  {
    if tasks == [] then None
    else if tasks[0].id == taskId && PlanOwner(plans, tasks[0].planId) == Some(userId) then Some(0)
    else
      var k := OwnedTask(plans, tasks[1..], taskId, userId);
      if k.Some? then Some(k.value + 1) else None
  }

  // ------------------------------------------------------------ progress

  function CountStatus(ts: seq<Task>, s: TaskStatus): (r: nat)
    ensures r <= |ts|
  {
    if ts == [] then 0 else CountStatus(ts[..|ts| - 1], s) + (if ts[|ts| - 1].status == s then 1 else 0)
  }

  /** Completed, in-progress and pending tasks account for every task: the status has no other value. */
  lemma {:induction false} StatusCountsCover(ts: seq<Task>)
    ensures CountStatus(ts, Completed) + CountStatus(ts, InProgress) + CountStatus(ts, Pending) == |ts|
  {
    if ts != [] {
      StatusCountsCover(ts[..|ts| - 1]);
    }
  }

  function TasksOfPlan(tasks: seq<Task>, planId: nat): (r: seq<Task>)
    ensures |r| <= |tasks|
    ensures forall t :: t in r <==> t in tasks && t.planId == planId
  {
    if tasks == [] then []
    else if tasks[0].planId == planId then [tasks[0]] + TasksOfPlan(tasks[1..], planId)
    else TasksOfPlan(tasks[1..], planId)
  }

  /** `LearningPlan.findOne({ where: { user_id, status: 'active' } })`: the first such plan. */
  function ActivePlanOf(plans: seq<Plan>, userId: int): (r: Option<Plan>)
    ensures r.None? <==> forall p | p in plans :: p.userId != userId || p.status != PlanActive
    ensures r.Some? ==> r.value in plans && r.value.userId == userId && r.value.status == PlanActive
  {
    if plans == [] then None
    else if plans[0].userId == userId && plans[0].status == PlanActive then Some(plans[0])
    else ActivePlanOf(plans[1..], userId)
  }

  function Scores(rows: seq<Assessments.Assessment>): (r: seq<nat>)
    ensures |r| == |rows| && forall i | 0 <= i < |rows| :: r[i] == rows[i].score
  {
    seq(|rows|, i requires 0 <= i < |rows| => rows[i].score)
  }

  datatype RecentResult = RecentResult(chapterName: Option<string>, score: nat, completedAt: Option<nat>)

  datatype ProgressReply =
    | ProgressRefused(refusal: Refusal)
    | NoActivePlan
    | Progress(
        plan: Plan,
        totalTasks: nat,
        completedTasks: nat,
        inProgressTasks: nat,
        pendingTasks: nat,
        progressRate: real,
        recent: seq<RecentResult>,
        averageScore: real)

  /** `getLearningProgress`. */
  function LearningProgress(
    plans: seq<Plan>, tasks: seq<Task>, recs: seq<Assessments.Assessment>, chapters: seq<Chapter>, userId: Option<int>)
    : (r: ProgressReply)
    ensures !SignedIn(userId) <==> r == ProgressRefused(Refusal(StatusUnauthorized, Unauthenticated))
    ensures SignedIn(userId) ==> (r == NoActivePlan <==> ActivePlanOf(plans, userId.value).None?)
    ensures r.Progress? ==>
      SignedIn(userId) && r.plan.userId == userId.value && r.plan.status == PlanActive &&
      r.completedTasks + r.inProgressTasks + r.pendingTasks == r.totalTasks &&
      r.totalTasks == |TasksOfPlan(tasks, r.plan.id)| &&
      0.0 <= r.progressRate <= 100.0 &&
      (r.totalTasks == 0 ==> r.progressRate == 0.0) &&
      (r.totalTasks > 0 ==> (r.progressRate == 100.0 <==> r.completedTasks == r.totalTasks)) &&
      |r.recent| <= AveragedAssessments &&
      (r.recent == [] ==> r.averageScore == 0.0)
    ensures r.Progress? ==>
      SignedIn(userId) && ActivePlanOf(plans, userId.value) == Some(r.plan) &&
      var mine := TasksOfPlan(tasks, r.plan.id);
      r.completedTasks == CountStatus(mine, Completed) &&
      r.inProgressTasks == CountStatus(mine, InProgress) &&
      r.pendingTasks == CountStatus(mine, Pending) &&
      r.progressRate == Percent(r.completedTasks, r.totalTasks)
    ensures r.Progress? ==>
      SignedIn(userId) &&
      var rows := Recent(recs, userId.value, AveragedAssessments);
      |r.recent| == |rows| &&
      (forall i | 0 <= i < |rows| ::
        r.recent[i] == RecentResult(ChapterName(chapters, rows[i]), rows[i].score, rows[i].completedAt)) &&
      r.averageScore == Mean(Scores(rows))
  {
    if !SignedIn(userId) then ProgressRefused(Refusal(StatusUnauthorized, Unauthenticated))
    else
      var active := ActivePlanOf(plans, userId.value);
      if active.None? then NoActivePlan
      else
        var plan := active.value;
        var mine := TasksOfPlan(tasks, plan.id);
        var completed := CountStatus(mine, Completed);
        StatusCountsCover(mine);
        var rows := Recent(recs, userId.value, AveragedAssessments);
        Progress(plan, |mine|, completed, CountStatus(mine, InProgress), CountStatus(mine, Pending),
                 Percent(completed, |mine|),
                 seq(|rows|, i requires 0 <= i < |rows| => RecentResult(ChapterName(chapters, rows[i]), rows[i].score, rows[i].completedAt)),
                 Mean(Scores(rows)))
  }

  /** When every score is a percentage, so is the average progress score. */
  lemma AverageIsPercentage(
    plans: seq<Plan>, tasks: seq<Task>, recs: seq<Assessments.Assessment>, chapters: seq<Chapter>, userId: Option<int>)
    requires forall a | a in recs :: a.score <= 100
    ensures var r := LearningProgress(plans, tasks, recs, chapters, userId);
      r.Progress? ==> 0.0 <= r.averageScore <= 100.0
  {
    if SignedIn(userId) && ActivePlanOf(plans, userId.value).Some? {
      var rows := Recent(recs, userId.value, AveragedAssessments);
      MeanBounded(Scores(rows), 100);
    }
  }

  // ------------------------------------------------------------ the average as written

  /** A score as the MySQL driver hands a `DECIMAL(5,2)` column over: text, `80` as `"80.00"`. */
  function ScoreText(score: nat): (r: string)
    ensures |r| >= 4 && r[|r| - 3..] == ".00"
    ensures forall i | 0 <= i < |r| - 3 :: Json.IsDigit(r[i])
  {
    Json.Digits(score) + ".00"
  }

  /**
   * `reduce((sum, a) => sum + a.score, 0)` over text scores: `0 + "80.00"`
   * is the text `"080.00"`, and every further `+` appends.
   */
  function ScoreConcatenation(scores: seq<nat>): (r: string)
    ensures |r| >= 1 && r[0] == '0'
  {
    if scores == [] then "0" else ScoreConcatenation(scores[..|scores| - 1]) + ScoreText(scores[|scores| - 1])
  }

  function Pow10(n: nat): (r: nat)
    ensures r >= 1
  {
    if n == 0 then 1 else 10 * Pow10(n - 1)
  }

  /**
   * JavaScript's conversion of a text of digits and points to a number,
   * which the division applies to the concatenation: digits, then at most
   * one point followed by digits. Any other text is NaN, here `None`.
   */
  function DecimalValue(s: string): Option<real> {
    var k := Json.DigitRun(s);
    if k == 0 then None
    else if k == |s| then Some(Json.DigitsValue(s) as real)
    else if s[k] != '.' || Json.DigitRun(s[k + 1..]) != |s| - k - 1 then None
    else Some(Pointed(Json.DigitsValue(s[..k]), Json.DigitsValue(s[k + 1..]), |s| - k - 1))
  }

  /** The number `whole.frac` where `frac` has `places` digits. */
  function Pointed(whole: nat, frac: nat, places: nat): (r: real)
    ensures frac == 0 ==> r == whole as real
  {
    whole as real + (frac as real) / (Pow10(places) as real)
  }

  /** A text with a number value holds at most one point. */
  lemma PointsOfDecimal(s: string)
    ensures DecimalValue(s).Some? ==> multiset(s)['.'] <= 1
  {
    var k := Json.DigitRun(s);
    if DecimalValue(s).Some? {
      NoPoint(s[..k]);
      assert s == s[..k] + s[k..];
      if k < |s| {
        NoPoint(s[k + 1..]);
        assert s[k..] == [s[k]] + s[k + 1..];
      }
    }
  }

  lemma NoPoint(ds: string)
    requires forall i | 0 <= i < |ds| :: Json.IsDigit(ds[i])
    ensures multiset(ds)['.'] == 0
  {
    assert '.' !in ds;
  }

  lemma {:induction false} PointsOfConcatenation(scores: seq<nat>)
    ensures multiset(ScoreConcatenation(scores))['.'] == |scores|
  {
    if scores != [] {
      var init := scores[..|scores| - 1];
      var t := ScoreText(scores[|scores| - 1]);
      PointsOfConcatenation(init);
      PointsOfScoreText(scores[|scores| - 1]);
      assert ScoreConcatenation(scores) == ScoreConcatenation(init) + t;
      assert multiset(ScoreConcatenation(scores)) == multiset(ScoreConcatenation(init)) + multiset(t);
    }
  }

  lemma PointsOfScoreText(score: nat)
    ensures multiset(ScoreText(score))['.'] == 1
  {
    var ds := Json.Digits(score);
    NoPoint(ds);
    assert ScoreText(score) == ds + "." + "00";
    assert multiset(ScoreText(score)) == multiset(ds) + multiset(".") + multiset("00");
  }

  /** A leading zero does not change the value of a digit string. */
  lemma {:induction false} LeadingZeroValue(ds: string)
    requires forall i | 0 <= i < |ds| :: Json.IsDigit(ds[i])
    ensures Json.DigitsValue("0" + ds) == Json.DigitsValue(ds)
  {
    if ds != [] {
      var z := "0" + ds;
      assert z[..|z| - 1] == "0" + ds[..|ds| - 1];
      LeadingZeroValue(ds[..|ds| - 1]);
    }
  }

  /** The concatenation of a single score reads back as that score. */
  lemma OneScoreValue(score: nat)
    ensures DecimalValue(ScoreConcatenation([score])) == Some(score as real)
  {
    var ds := Json.Digits(score);
    assert [score][..0] == [];
    assert ScoreConcatenation([score]) == ScoreConcatenation([]) + ScoreText(score);
    assert ScoreConcatenation([score]) == ("0" + ds) + "." + "00";
    PointedValue("0" + ds, "00");
    LeadingZeroValue(ds);
    Json.DigitsValueOf(score);
    assert "00"[..1] == "0" && "0"[..0] == [];
    assert Json.DigitsValue("00") == 0;
  }

  /** Digits, a point and digits read as the whole part plus the fraction. */
  lemma PointedValue(ip: string, fp: string)
    requires ip != [] && forall i | 0 <= i < |ip| :: Json.IsDigit(ip[i])
    requires forall i | 0 <= i < |fp| :: Json.IsDigit(fp[i])
    ensures DecimalValue(ip + "." + fp) == Some(Pointed(Json.DigitsValue(ip), Json.DigitsValue(fp), |fp|))
  {
    var rest := "." + fp;
    var s := ip + rest;
    assert ip + "." + fp == s;
    assert rest[0] == '.' && !Json.IsDigit(rest[0]);
    Json.DigitRunOf(ip, rest);
    var k := Json.DigitRun(s);
    assert k == |ip| < |s|;
    assert s[k] == '.';
    assert s[..k] == ip;
    assert s[k + 1..] == fp;
    Json.DigitRunOf(fp, []);
    assert fp + [] == fp;
    assert |s| - k - 1 == |fp|;
    assert Json.DigitRun(s[k + 1..]) == |s| - k - 1;
  }

  /**
   * `average_score` as `getLearningProgress` computes it: no rows give 0;
   * otherwise the concatenated text divided by the number of rows, which is
   * the score itself for one row and NaN (`None`) for two or more, since
   * every score brings its own decimal point.
   */
  function AverageAsWritten(scores: seq<nat>): (r: Option<real>)
    ensures scores == [] ==> r == Some(0.0)
    ensures |scores| == 1 ==> r == Some(scores[0] as real)
    ensures r.None? <==> |scores| >= 2
  {
    if scores == [] then Some(0.0)
    else
      ConcatenationValue(scores);
      Quotient(DecimalValue(ScoreConcatenation(scores)), |scores|)
  }

  /** Division by a row count; NaN divided by anything stays NaN. */
  function Quotient(v: Option<real>, n: nat): (r: Option<real>)
    requires n > 0
    ensures r.Some? <==> v.Some?
    ensures r.Some? ==> r.value * (n as real) == v.value
  {
    if v.None? then None else Some(v.value / (n as real))
  }

  /** The concatenated scores read back as the one score, and as NaN once there are two. */
  lemma ConcatenationValue(scores: seq<nat>)
    ensures |scores| == 1 ==> DecimalValue(ScoreConcatenation(scores)) == Some(scores[0] as real)
    ensures |scores| >= 2 ==> DecimalValue(ScoreConcatenation(scores)).None?
  {
    PointsOfConcatenation(scores);
    PointsOfDecimal(ScoreConcatenation(scores));
    if |scores| == 1 {
      assert scores == [scores[0]];
      OneScoreValue(scores[0]);
    }
  }

  /** The average as written agrees with the mean exactly when there is at most one row. */
  lemma AverageAsWrittenIsMean(scores: seq<nat>)
    ensures AverageAsWritten(scores) == Some(Mean(scores)) <==> |scores| <= 1
  {
    if |scores| == 1 {
      assert scores[..0] == [];
      assert Sum(scores) == Sum(scores[..0]) + scores[0];
      assert Mean(scores) * 1.0 == scores[0] as real;
    }
  }

  /** Two completed assessments scoring 80 and 70: the mean is 75, the average as written is NaN. */
  lemma TwoScoresAverage()
    ensures AverageAsWritten([80, 70]).None? && Mean([80, 70]) == 75.0
  {
    assert [80, 70][..1] == [80];
    assert [80][..0] == [];
  }

  /**
   * The progress reply against the average as written: as soon as the user
   * has two completed assessments, `getLearningProgress` sends NaN where the model
   * sends the mean.
   */
  lemma ProgressAverageAsWritten(
    plans: seq<Plan>, tasks: seq<Task>, recs: seq<Assessments.Assessment>, chapters: seq<Chapter>, userId: Option<int>)
    ensures var r := LearningProgress(plans, tasks, recs, chapters, userId);
      r.Progress? ==>
        var asWritten := AverageAsWritten(Scores(Recent(recs, userId.value, AveragedAssessments)));
        (asWritten == Some(r.averageScore) <==> |r.recent| <= 1)
  {
    var r := LearningProgress(plans, tasks, recs, chapters, userId);
    if r.Progress? {
      AverageAsWrittenIsMean(Scores(Recent(recs, userId.value, AveragedAssessments)));
    }
  }

  // ------------------------------------------------------------ the plan and task tables

  const PlanFailure: string := "生成学习计划失败"

  datatype PlanReply =
    | PlanRefused(refusal: Refusal)
    | PlanFailed(message: string, details: string)
    | PlanCreated(plan: Plan, tasks: seq<Task>, focus: seq<string>)

  datatype TaskReply =
    | TaskRefused(refusal: Refusal)
    | TaskUpdated(taskId: nat, status: TaskStatus, completedAt: Option<nat>)

  /** Ids are positions plus one, and every task belongs to a stored plan. */
  ghost predicate Tables(plans: seq<Plan>, tasks: seq<Task>) {
    (forall i | 0 <= i < |plans| :: plans[i].id == i + 1) &&
    (forall i | 0 <= i < |tasks| :: tasks[i].id == i + 1 && 1 <= tasks[i].planId <= |plans|)
  }

  /** A new plan stored with its tasks keeps the tables consistent. */
  lemma AddPlanKeepsTables(plans: seq<Plan>, tasks: seq<Task>, plan: Plan, made: seq<Task>)
    requires Tables(plans, tasks)
    requires plan.id == |plans| + 1
    requires forall k | 0 <= k < |made| :: made[k].id == |tasks| + 1 + k && made[k].planId == plan.id
    ensures Tables(plans + [plan], tasks + made)
  {
    var ts := tasks + made;
    forall i | 0 <= i < |ts|
      ensures ts[i].id == i + 1 && 1 <= ts[i].planId <= |plans| + 1
    {
      if i >= |tasks| {
        assert ts[i] == made[i - |tasks|];
      }
    }
  }

  class LearningStore {
    var plans: seq<Plan>
    var tasks: seq<Task>

    ghost predicate Valid()
      reads this
    {
      Tables(plans, tasks)
    }

    constructor()
      ensures Valid() && plans == [] && tasks == []
    {
      plans := [];
      tasks := [];
    }

    /**
     * `generateLearningPlan`: 401 or 404 for a missing user, 500 with the
     * generator's error, otherwise one new active plan and the tasks for its
     * focus chapters. `content` is what the plan generator returns for the
     * focus chapters.
     */
    method GenerateLearningPlan(
      userId: Option<int>, users: seq<Accounts.User>, recs: seq<Assessments.Assessment>, chapters: seq<Chapter>,
      targetScore: Option<int>, requested: Option<seq<string>>, content: Result<string, string>, now: nat)
      returns (reply: PlanReply)
      requires Valid()
      modifies this
      ensures Valid()
      ensures !SignedIn(userId) ==>
        reply == PlanRefused(Refusal(StatusUnauthorized, Unauthenticated)) && plans == old(plans) && tasks == old(tasks)
      ensures SignedIn(userId) && Accounts.IndexOfId(users, userId.value).None? ==>
        reply == PlanRefused(Refusal(StatusNotFound, Accounts.NoUser)) && plans == old(plans) && tasks == old(tasks)
      ensures SignedIn(userId) && Accounts.IndexOfId(users, userId.value).Some? && content.Err? ==>
        reply == PlanFailed(PlanFailure, content.error) && plans == old(plans) && tasks == old(tasks)
      ensures SignedIn(userId) && Accounts.IndexOfId(users, userId.value).Some? && content.Ok? ==>
        var user := users[Accounts.IndexOfId(users, userId.value).value];
        var focus := FocusChapters(requested, WeakChapters(recs, userId.value, chapters), ActiveNamesOfGrade(chapters, user.grade));
        var plan := NewPlan(|old(plans)| + 1, userId.value, user.name, content.value, targetScore, now);
        var made := TasksFrom(focus, 0, chapters, plan.id, |old(tasks)| + 1, now);
        plans == old(plans) + [plan] && tasks == old(tasks) + made && reply == PlanCreated(plan, made, focus)
    {
      if !SignedIn(userId) {
        reply := PlanRefused(Refusal(StatusUnauthorized, Unauthenticated));
        return;
      }
      var found := Accounts.IndexOfId(users, userId.value);
      if found.None? {
        reply := PlanRefused(Refusal(StatusNotFound, Accounts.NoUser));
        return;
      }
      var user := users[found.value];
      var weak := WeakChapters(recs, userId.value, chapters);
      var focus := if requested.Some? then requested.value else Take(weak, FocusLimit);
      if |focus| == 0 {
        focus := focus + Take(ActiveNamesOfGrade(chapters, user.grade), FocusLimit);
      }
      assert focus == FocusChapters(requested, weak, ActiveNamesOfGrade(chapters, user.grade));
      if content.Err? {
        reply := PlanFailed(PlanFailure, content.error);
        return;
      }
      var plan := NewPlan(|plans| + 1, userId.value, user.name, content.value, targetScore, now);
      var made := TasksFrom(focus, 0, chapters, plan.id, |tasks| + 1, now);
      AddPlanKeepsTables(plans, tasks, plan, made);
      plans := plans + [plan];
      tasks := tasks + made;
      reply := PlanCreated(plan, made, focus);
    }

    /**
     * `updateTaskStatus`: 401, 404 unless the task belongs to one of the
     * user's plans, 500 for a status outside the column's values, otherwise
     * the status stored and, on completion, the completion time.
     */
    method UpdateTaskStatus(userId: Option<int>, taskId: int, status: string, now: nat) returns (reply: TaskReply)
      requires Valid()
      modifies this
      ensures Valid() && plans == old(plans)
      ensures !SignedIn(userId) ==>
        reply == TaskRefused(Refusal(StatusUnauthorized, Unauthenticated)) && tasks == old(tasks)
      ensures SignedIn(userId) && OwnedTask(plans, old(tasks), taskId, userId.value).None? ==>
        reply == TaskRefused(Refusal(StatusNotFound, NoTask)) && tasks == old(tasks)
      ensures SignedIn(userId) && OwnedTask(plans, old(tasks), taskId, userId.value).Some? && StatusFromText(status).None? ==>
        reply == TaskRefused(Refusal(StatusServerError, TaskUpdateFailed)) && tasks == old(tasks)
      ensures SignedIn(userId) && OwnedTask(plans, old(tasks), taskId, userId.value).Some? && StatusFromText(status).Some? ==>
        var k := OwnedTask(plans, old(tasks), taskId, userId.value).value;
        var s := StatusFromText(status).value;
        tasks == old(tasks)[k := WithStatus(old(tasks)[k], s, now)] &&
        reply == TaskUpdated(old(tasks)[k].id, s, if s == Completed then Some(now) else None)
    {
      if !SignedIn(userId) {
        reply := TaskRefused(Refusal(StatusUnauthorized, Unauthenticated));
        return;
      }
      var found := OwnedTask(plans, tasks, taskId, userId.value);
      if found.None? {
        reply := TaskRefused(Refusal(StatusNotFound, NoTask));
        return;
      }
      var parsed := StatusFromText(status);
      if parsed.None? {
        reply := TaskRefused(Refusal(StatusServerError, TaskUpdateFailed));
        return;
      }
      var k := found.value;
      var s := parsed.value;
      var completedAt: Option<nat> := None;
      if s == Completed {
        completedAt := Some(now);
      }
      var id := tasks[k].id;
      tasks := tasks[k := WithStatus(tasks[k], s, now)];
      reply := TaskUpdated(id, s, completedAt);
    }
  }
}
