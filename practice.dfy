/**
 * Practice: a shared question bank filled on demand by the generator, one
 * practice record per user and question that each resubmission updates, the
 * per-question usage statistics refreshed after every submission, and the
 * per-user statistics with their per-topic breakdown.
 */
module Practice {
  import opened Wrappers
  import opened Text
  import opened Json
  import opened Questions
  import opened Catalog
  import opened Answers
  import opened Http
  import Paging
  import Seqs
  import opened Rates

  /** A bank question; `correctRate` is a percentage kept by the statistics update. */
  datatype PracticeQuestion = PracticeQuestion(
    id: nat,
    topicId: int,
    questionText: string,
    questionType: QuestionType,
    difficulty: Difficulty,
    options: Option<string>,
    correctAnswer: string,
    solution: string,
    usageCount: nat,
    correctRate: real)

  /** A user's latest submission on one question and how often they have submitted it. */
  datatype PracticeRecord = PracticeRecord(
    id: nat,
    userId: int,
    questionId: int,
    userAnswer: string,
    isCorrect: bool,
    timeSpent: int,
    attemptCount: nat)

  /** A bank question as the client lists it: no answer and no solution. */
  datatype PracticeView = PracticeView(
    id: nat,
    questionText: string,
    questionType: QuestionType,
    difficulty: Difficulty,
    options: Option<Value>,
    usageCount: nat,
    correctRate: real)

  const NoQuestion: string := "题目不存在"
  const SubmitFailed: string := "提交练习答案失败"
  /** Generated questions whose first `DedupPrefix` characters already occur are not stored. */
  const DedupPrefix: nat := 20
  /** The generator is asked for at least this many questions. */
  const MinGenerated: int := 5

  // ------------------------------------------------------------ statistics of one question

  /** The records of one question, in store order. */
  function RecordsOf(records: seq<PracticeRecord>, questionId: int): (r: seq<PracticeRecord>)
    ensures |r| <= |records|
    ensures forall x :: x in r <==> x in records && x.questionId == questionId
  {
    if records == [] then []
    else if records[0].questionId == questionId then [records[0]] + RecordsOf(records[1..], questionId)
    else RecordsOf(records[1..], questionId)
  }

  function CountCorrect(records: seq<PracticeRecord>): (n: nat)
    ensures n <= |records|
    ensures n == |records| <==> forall k :: 0 <= k < |records| ==> records[k].isCorrect
  {
    if records == [] then 0
    else (if records[0].isCorrect then 1 else 0) + CountCorrect(records[1..])
  }

  /** `updateQuestionStats`: usage is the number of records of the question, the rate their share of correct ones. */
  function WithStats(q: PracticeQuestion, records: seq<PracticeRecord>): (r: PracticeQuestion)
    ensures r.usageCount == |RecordsOf(records, q.id)|
    ensures 0.0 <= r.correctRate <= 100.0
    ensures r.usageCount == 0 ==> r.correctRate == 0.0
    ensures r.correctRate == Percent(CountCorrect(RecordsOf(records, q.id)), r.usageCount)
    ensures r == q.(usageCount := r.usageCount, correctRate := r.correctRate)
  {
    var mine := RecordsOf(records, q.id);
    q.(usageCount := |mine|, correctRate := Percent(CountCorrect(mine), |mine|))
  }

  // ------------------------------------------------------------ submitting

  /** `PracticeQuestion.findByPk(id)`. */
  function FindQuestion(qs: seq<PracticeQuestion>, id: int): (r: Option<nat>)
    ensures r.Some? ==> r.value < |qs| && qs[r.value].id == id
    ensures r.None? <==> forall k :: 0 <= k < |qs| ==> qs[k].id != id
  {
    if qs == [] then None
    else if qs[0].id == id then Some(0)
    else
      var r := FindQuestion(qs[1..], id);
      if r.Some? then Some(r.value + 1) else None
  }

  /** `PracticeRecord.findOne({ where: { user_id, question_id } })`. */
  function FindRecord(records: seq<PracticeRecord>, userId: int, questionId: int): (r: Option<nat>)
    ensures r.Some? ==> r.value < |records| && records[r.value].userId == userId && records[r.value].questionId == questionId
    ensures r.None? <==> forall k :: 0 <= k < |records| ==> records[k].userId != userId || records[k].questionId != questionId
  {
    if records == [] then None
    else if records[0].userId == userId && records[0].questionId == questionId then Some(0)
    else
      var r := FindRecord(records[1..], userId, questionId);
      if r.Some? then Some(r.value + 1) else None
  }

  /**
   * The record table after one submission: the user's record on the
   * question is overwritten with one more attempt, or a first record with
   * one attempt is appended.
   */
  function Recorded(records: seq<PracticeRecord>, userId: int, questionId: int,
                    answer: string, isCorrect: bool, timeSpent: int): (r: seq<PracticeRecord>)
    ensures FindRecord(records, userId, questionId).Some? ==>
      |r| == |records| &&
      forall k | 0 <= k < |records| && k != FindRecord(records, userId, questionId).value :: r[k] == records[k]
    ensures FindRecord(records, userId, questionId).None? ==>
      |r| == |records| + 1 && r[..|records|] == records && r[|records|].attemptCount == 1
  {
    match FindRecord(records, userId, questionId)
    case Some(k) =>
      records[k := records[k].(userAnswer := answer, isCorrect := isCorrect, timeSpent := timeSpent,
                               attemptCount := records[k].attemptCount + 1)]
    case None =>
      records + [PracticeRecord(|records| + 1, userId, questionId, answer, isCorrect, timeSpent, 1)]
  }

  /** After a submission the user's record holds this answer, and its attempt count went up by one from 0 or its old value. */
  lemma RecordedAttempt(records: seq<PracticeRecord>, userId: int, questionId: int,
                        answer: string, isCorrect: bool, timeSpent: int)
    ensures var after := Recorded(records, userId, questionId, answer, isCorrect, timeSpent);
      var before := FindRecord(records, userId, questionId);
      FindRecord(after, userId, questionId).Some? &&
      var k := FindRecord(after, userId, questionId).value;
      after[k].userAnswer == answer && after[k].isCorrect == isCorrect && after[k].timeSpent == timeSpent &&
      after[k].attemptCount == (if before.Some? then records[before.value].attemptCount + 1 else 1) &&
      |after| == |records| + (if before.Some? then 0 else 1)
  {
    var after := Recorded(records, userId, questionId, answer, isCorrect, timeSpent);
    match FindRecord(records, userId, questionId)
    case Some(k) =>
      FindRecordAfterUpdate(records, userId, questionId, k, after[k]);
    case None =>
      FindRecordAppended(records, userId, questionId, after[|records|]);
  }

  lemma {:induction false} FindRecordAfterUpdate(records: seq<PracticeRecord>, userId: int, questionId: int,
                                                 k: nat, x: PracticeRecord)
    requires FindRecord(records, userId, questionId) == Some(k)
    requires x.userId == userId && x.questionId == questionId
    ensures FindRecord(records[k := x], userId, questionId) == Some(k)
  {
    if k > 0 {
      assert records[k := x][1..] == records[1..][k - 1 := x];
      FindRecordAfterUpdate(records[1..], userId, questionId, k - 1, x);
    }
  }

  lemma {:induction false} FindRecordAppended(records: seq<PracticeRecord>, userId: int, questionId: int, x: PracticeRecord)
    requires FindRecord(records, userId, questionId).None?
    requires x.userId == userId && x.questionId == questionId
    ensures FindRecord(records + [x], userId, questionId) == Some(|records|)
  {
    if records != [] {
      assert (records + [x])[1..] == records[1..] + [x];
      FindRecordAppended(records[1..], userId, questionId, x);
    }
  }

  /** How often a (user, question) pair occurs in a log of submissions. */
  function Occurrences(log: seq<(int, int)>, pair: (int, int)): (n: nat)
    ensures n <= |log|
    ensures n > 0 <==> exists i :: 0 <= i < |log| && log[i] == pair
  {
    if log == [] then 0
    else Occurrences(log[..|log| - 1], pair) + (if log[|log| - 1] == pair then 1 else 0)
  }

  datatype SubmitReply =
    | SubmitRefused(refusal: Refusal)
    | Submitted(questionId: int, isCorrect: bool, correctAnswer: string, solution: string, attemptCount: nat)

  // ------------------------------------------------------------ statistics of one user

  /** One record of the user reduced to what the per-topic breakdown reads: its topic's name, if any, and its verdict. */
  datatype Tallied = Tallied(topic: Option<string>, correct: bool)

  /** `record.question?.topic?.name`, kept only when truthy. */
  function TopicNameOf(r: PracticeRecord, qs: seq<PracticeQuestion>, topics: seq<Topic>): (n: Option<string>)
    ensures n.Some? ==> n.value != ""
  {
    var q := FindQuestion(qs, r.questionId);
    if q.None? then None
    else
      var t := FindTopic(topics, qs[q.value].topicId);
      if t.None? || t.value.name == "" then None else Some(t.value.name)
  }

  /** Topic names in the order a `Map` first sees them. */
  function FirstSeen(rows: seq<Tallied>): (r: seq<string>)
    ensures forall i, j :: 0 <= i < j < |r| ==> r[i] != r[j]
    ensures forall n :: n in r ==> exists i :: 0 <= i < |rows| && rows[i].topic == Some(n)
    ensures forall i :: 0 <= i < |rows| && rows[i].topic.Some? ==> rows[i].topic.value in r
  {
    if rows == [] then []
    else
      var p := FirstSeen(rows[..|rows| - 1]);
      var last := rows[|rows| - 1];
      assert forall i :: 0 <= i < |rows| - 1 ==> rows[..|rows| - 1][i] == rows[i];
      if last.topic.Some? && last.topic.value !in p then p + [last.topic.value] else p
  }

  /** Rows of one topic. */
  function CountTopic(rows: seq<Tallied>, name: string): (n: nat)
    ensures n <= |rows|
  {
    if rows == [] then 0
    else CountTopic(rows[..|rows| - 1], name) + (if rows[|rows| - 1].topic == Some(name) then 1 else 0)
  }

  /** Correct rows of one topic. */
  function CountTopicCorrect(rows: seq<Tallied>, name: string): (n: nat)
    ensures n <= CountTopic(rows, name)
  {
    if rows == [] then 0
    else
      var last := rows[|rows| - 1];
      CountTopicCorrect(rows[..|rows| - 1], name) + (if last.topic == Some(name) && last.correct then 1 else 0)
  }

  /** Rows that have a topic name. */
  function CountNamed(rows: seq<Tallied>): (n: nat)
    ensures n <= |rows|
  {
    if rows == [] then 0
    else CountNamed(rows[..|rows| - 1]) + (if rows[|rows| - 1].topic.Some? then 1 else 0)
  }

  datatype TopicStat = TopicStat(topicName: string, totalCount: nat, correctCount: nat, correctRate: real)

  function StatFor(rows: seq<Tallied>, name: string): TopicStat {
    var c := CountTopicCorrect(rows, name);
    TopicStat(name, CountTopic(rows, name), c, Percent(c, CountTopic(rows, name)))
  }

  /** The per-topic breakdown: one entry per distinct topic name, in first-seen order. */
  function TopicBreakdown(rows: seq<Tallied>): (r: seq<TopicStat>)
    ensures |r| == |FirstSeen(rows)|
    ensures forall k :: 0 <= k < |r| ==> r[k] == StatFor(rows, FirstSeen(rows)[k])
  {
    var names := FirstSeen(rows);
    seq(|names|, k requires 0 <= k < |names| => StatFor(rows, names[k]))
  }

  function SumTotals(stats: seq<TopicStat>): nat {
    if stats == [] then 0 else SumTotals(stats[..|stats| - 1]) + stats[|stats| - 1].totalCount
  }

  /** Every listed topic was seen at least once, and no topic has more correct than total. */
  lemma BreakdownEntries(rows: seq<Tallied>, k: nat)
    requires k < |TopicBreakdown(rows)|
    ensures var s := TopicBreakdown(rows)[k];
      s.topicName != "" || exists i :: 0 <= i < |rows| && rows[i].topic == Some("")
    ensures var s := TopicBreakdown(rows)[k];
      1 <= s.totalCount && s.correctCount <= s.totalCount && 0.0 <= s.correctRate <= 100.0
  {
    var n := FirstSeen(rows)[k];
    var i :| 0 <= i < |rows| && rows[i].topic == Some(n);
    CountTopicPositive(rows, n, i);
  }

  lemma {:induction false} CountTopicPositive(rows: seq<Tallied>, name: string, i: nat)
    requires i < |rows| && rows[i].topic == Some(name)
    ensures CountTopic(rows, name) >= 1
  {
    if i < |rows| - 1 {
      CountTopicPositive(rows[..|rows| - 1], name, i);
    }
  }

  lemma {:induction false} CountTopicAbsent(rows: seq<Tallied>, name: string)
    requires forall i :: 0 <= i < |rows| ==> rows[i].topic != Some(name)
    ensures CountTopic(rows, name) == 0
  {
    if rows != [] {
      CountTopicAbsent(rows[..|rows| - 1], name);
    }
  }

  /** The topic totals add up to the number of records that have a topic name. */
  lemma {:induction false} BreakdownSumsNamed(rows: seq<Tallied>)
    ensures SumTotals(TopicBreakdown(rows)) == CountNamed(rows)
  {
    BreakdownSum(rows, FirstSeen(rows));
    SeenSum(rows);
  }

  /** The sum of the breakdown's totals over a list of names, by a running sum. */
  function SumCounts(rows: seq<Tallied>, names: seq<string>): nat {
    if names == [] then 0 else SumCounts(rows, names[..|names| - 1]) + CountTopic(rows, names[|names| - 1])
  }

  lemma {:induction false} BreakdownSum(rows: seq<Tallied>, names: seq<string>)
    ensures SumTotals(seq(|names|, k requires 0 <= k < |names| => StatFor(rows, names[k]))) == SumCounts(rows, names)
  {
    var stats := seq(|names|, k requires 0 <= k < |names| => StatFor(rows, names[k]));
    if names != [] {
      var init := names[..|names| - 1];
      BreakdownSum(rows, init);
      assert stats[..|stats| - 1] == seq(|init|, k requires 0 <= k < |init| => StatFor(rows, init[k]));
    }
  }

  /** The running sum over the first-seen names counts every named row. */
  lemma {:induction false} SeenSum(rows: seq<Tallied>)
    ensures SumCounts(rows, FirstSeen(rows)) == CountNamed(rows)
  {
    if rows != [] {
      var init := rows[..|rows| - 1];
      var last := rows[|rows| - 1];
      var p := FirstSeen(init);
      SeenSum(init);
      if last.topic.None? {
        SumUnchanged(init, rows, p);
      } else if last.topic.value in p {
        SumBumped(init, rows, p, last.topic.value);
      } else {
        SumUnchanged(init, rows, p);
        CountTopicAbsent(init, last.topic.value);
        assert (p + [last.topic.value])[..|p|] == p;
      }
    }
  }

  /** Appending a row leaves the running sum over names other than its topic unchanged. */
  lemma {:induction false} SumUnchanged(init: seq<Tallied>, rows: seq<Tallied>, names: seq<string>)
    requires rows != [] && init == rows[..|rows| - 1]
    requires forall k :: 0 <= k < |names| ==> rows[|rows| - 1].topic != Some(names[k])
    ensures SumCounts(rows, names) == SumCounts(init, names)
  {
    if names != [] {
      SumUnchanged(init, rows, names[..|names| - 1]);
    }
  }

  /** Appending a row whose topic occurs once among the names adds one to the running sum. */
  lemma {:induction false} SumBumped(init: seq<Tallied>, rows: seq<Tallied>, names: seq<string>, n: string)
    requires rows != [] && init == rows[..|rows| - 1] && rows[|rows| - 1].topic == Some(n)
    requires n in names && forall i, j :: 0 <= i < j < |names| ==> names[i] != names[j]
    ensures SumCounts(rows, names) == SumCounts(init, names) + 1
  {
    var front := names[..|names| - 1];
    if names[|names| - 1] == n {
      forall k | 0 <= k < |front|
        ensures rows[|rows| - 1].topic != Some(front[k])
      {
        assert front[k] == names[k];
      }
      SumUnchanged(init, rows, front);
    } else {
      var i :| 0 <= i < |names| && names[i] == n;
      assert front[i] == n;
      SumBumped(init, rows, front, n);
    }
  }

  datatype Counts = Counts(total: nat, correct: nat)

  /**
   * The `Map` loop of `getPracticeStats`: rows without a topic name are
   * skipped, a new name gets a zero entry, and the entry's counters go up.
   * The entries are then listed in insertion order with their rates.
   */
  method CountByTopic(rows: seq<Tallied>) returns (stats: seq<TopicStat>)
    ensures stats == TopicBreakdown(rows)
  {
    var order: seq<string> := [];
    var counts: map<string, Counts> := map[];
    var i := 0;
    while i < |rows|
      invariant i <= |rows|
      invariant Tallies(rows[..i], order, counts)
    {
      var row := rows[i];
      ghost var order0, counts0 := order, counts;
      if row.topic.Some? {
        var name := row.topic.value;
        if name !in counts {
          counts := counts[name := Counts(0, 0)];
          order := order + [name];
        }
        var c := counts[name];
        counts := counts[name := Counts(c.total + 1, if row.correct then c.correct + 1 else c.correct)];
      }
      assert rows[..i + 1] == rows[..i] + [row];
      TallyAdvance(rows[..i], row, order0, counts0, order, counts);
      i := i + 1;
    }
    assert rows[..i] == rows;
    stats := Listed(rows, order, counts);
  }

  /** The loop's invariant: the names seen so far in order, and a counter pair for each. */
  ghost predicate Tallies(rows: seq<Tallied>, order: seq<string>, counts: map<string, Counts>) {
    order == FirstSeen(rows) &&
    (forall n :: n in counts <==> n in order) &&
    (forall n :: n in counts ==> counts[n] == Counts(CountTopic(rows, n), CountTopicCorrect(rows, n)))
  }

  /** One pass of the loop body keeps the invariant for one more row. */
  lemma TallyAdvance(seen: seq<Tallied>, row: Tallied, order0: seq<string>, counts0: map<string, Counts>,
                     order: seq<string>, counts: map<string, Counts>)
    requires Tallies(seen, order0, counts0)
    requires row.topic.None? ==> order == order0 && counts == counts0
    requires row.topic.Some? ==>
      var name := row.topic.value;
      var c := if name in counts0 then counts0[name] else Counts(0, 0);
      order == (if name in counts0 then order0 else order0 + [name]) &&
      counts == counts0[name := Counts(c.total + 1, if row.correct then c.correct + 1 else c.correct)]
    ensures Tallies(seen + [row], order, counts)
  {
    var rows := seen + [row];
    AppendRow(seen, row);
    if row.topic.Some? && row.topic.value !in counts0 {
      CountTopicAbsent(seen, row.topic.value);
    }
    forall n | n in counts
      ensures counts[n] == Counts(CountTopic(rows, n), CountTopicCorrect(rows, n))
    {
      if row.topic != Some(n) {
        assert n in counts0 && counts[n] == counts0[n];
      }
    }
  }

  /** How one more row changes the first-seen names and the counts. */
  lemma AppendRow(seen: seq<Tallied>, row: Tallied)
    ensures FirstSeen(seen + [row]) ==
      (if row.topic.Some? && row.topic.value !in FirstSeen(seen) then FirstSeen(seen) + [row.topic.value] else FirstSeen(seen))
    ensures forall n :: CountTopic(seen + [row], n) == CountTopic(seen, n) + (if row.topic == Some(n) then 1 else 0)
    ensures forall n :: (CountTopicCorrect(seen + [row], n) ==
      CountTopicCorrect(seen, n) + (if row.topic == Some(n) && row.correct then 1 else 0))
  {
    var rows := seen + [row];
    assert rows[..|seen|] == seen && rows[|seen|] == row;
  }

  /** `Array.from(map.entries()).map(...)`: the entries in insertion order, each with its rate. */
  function Listed(rows: seq<Tallied>, order: seq<string>, counts: map<string, Counts>): (r: seq<TopicStat>)
    requires order == FirstSeen(rows)
    requires forall n :: n in counts <==> n in order
    requires forall n :: n in counts ==> counts[n] == Counts(CountTopic(rows, n), CountTopicCorrect(rows, n))
    ensures r == TopicBreakdown(rows)
  {
    seq(|order|, k requires 0 <= k < |order| => Entry(rows, order[k], counts))
  }

  function Entry(rows: seq<Tallied>, name: string, counts: map<string, Counts>): (r: TopicStat)
    requires name in counts && counts[name] == Counts(CountTopic(rows, name), CountTopicCorrect(rows, name))
    ensures r == StatFor(rows, name)
  {
    var c := counts[name];
    TopicStat(name, c.total, c.correct, Percent(c.correct, c.total))
  }

  datatype StatsReply =
    | StatsRefused(refusal: Refusal)
    | Stats(totalPractices: nat, correctCount: nat, incorrectCount: nat, correctRate: real, topics: seq<TopicStat>)

  /** The records of one user, in store order. */
  function RecordsBy(records: seq<PracticeRecord>, userId: int): (r: seq<PracticeRecord>)
    ensures |r| <= |records|
    ensures forall x :: x in r <==> x in records && x.userId == userId
  {
    if records == [] then []
    else if records[0].userId == userId then [records[0]] + RecordsBy(records[1..], userId)
    else RecordsBy(records[1..], userId)
  }

  function TalliedRows(mine: seq<PracticeRecord>, qs: seq<PracticeQuestion>, topics: seq<Topic>): (r: seq<Tallied>)
    ensures |r| == |mine|
    ensures forall k :: 0 <= k < |mine| ==> r[k] == Tallied(TopicNameOf(mine[k], qs, topics), mine[k].isCorrect)
  {
    seq(|mine|, k requires 0 <= k < |mine| => Tallied(TopicNameOf(mine[k], qs, topics), mine[k].isCorrect))
  }

  /** The totals of `getPracticeStats`: records, correct ones, the rest, and the rate. */
  function Totals(mine: seq<PracticeRecord>): (r: (nat, nat, nat, real))
    ensures r.0 == |mine| && r.1 == CountCorrect(mine) && r.1 + r.2 == r.0
    ensures r.0 == 0 ==> r.3 == 0.0
    ensures 0.0 <= r.3 <= 100.0
    ensures r.3 == Percent(r.1, r.0) && r.3 * r.0 as real == 100.0 * r.1 as real
  {
    var total := |mine|;
    var correct := CountCorrect(mine);
    (total, correct, total - correct, Percent(correct, total))
  }

  // ------------------------------------------------------------ the question bank

  /** `where`: each filter given narrows the bank. */
  predicate Matches(q: PracticeQuestion, topicId: Option<int>, difficulty: Option<Difficulty>, questionType: Option<QuestionType>) {
    (topicId.None? || q.topicId == topicId.value) &&
    (difficulty.None? || q.difficulty == difficulty.value) &&
    (questionType.None? || q.questionType == questionType.value)
  }

  /** The matching bank questions, newest first (the bank grows at its end). */
  function Matching(qs: seq<PracticeQuestion>, topicId: Option<int>, difficulty: Option<Difficulty>,
                    questionType: Option<QuestionType>): (r: seq<PracticeQuestion>)
    ensures |r| <= |qs|
    ensures forall q :: q in r <==> q in qs && Matches(q, topicId, difficulty, questionType)
  {
    if qs == [] then []
    else
      var rest := Matching(qs[..|qs| - 1], topicId, difficulty, questionType);
      var last := qs[|qs| - 1];
      assert forall q :: q in qs <==> q in qs[..|qs| - 1] || q == last;
      if Matches(last, topicId, difficulty, questionType) then [last] + rest else rest
  }

  /** `generate === 'true'`, or else too few matching questions to fill a page. */
  predicate ShouldGenerate(generate: Option<string>, existing: nat, pageSize: int) {
    generate == Some("true") || existing < pageSize
  }

  /** What the generator is asked for: the topic, the difficulty (default basic) and `Math.max(pageSize, 5)` questions. */
  datatype GenerationRequest = GenerationRequest(topicName: string, difficulty: Difficulty, count: int)

  function RequestFor(topic: Topic, difficulty: Option<Difficulty>, pageSize: int): (r: GenerationRequest)
    ensures r.count >= MinGenerated && r.count >= pageSize && (r.count == MinGenerated || r.count == pageSize)
  {
    GenerationRequest(topic.name, difficulty.GetOr(Basic), if pageSize > MinGenerated then pageSize else MinGenerated)
  }

  /** A stored question of the topic already contains the first 20 characters of the text. */
  predicate Duplicate(text: string, bank: seq<PracticeQuestion>, topicId: int) {
    exists k :: 0 <= k < |bank| && bank[k].topicId == topicId && Contains(bank[k].questionText, PrefixOf(text, DedupPrefix))
  }

  /** The generated questions that are not duplicates of the bank as it stood before the batch, in order. */
  function Fresh(gs: seq<GeneratedQuestion>, bank: seq<PracticeQuestion>, topicId: int): (r: seq<GeneratedQuestion>)
    ensures |r| <= |gs|
    ensures forall g :: g in r <==> g in gs && !Duplicate(g.questionText, bank, topicId)
  {
    if gs == [] then []
    else
      var rest := Fresh(gs[1..], bank, topicId);
      if Duplicate(gs[0].questionText, bank, topicId) then rest else [gs[0]] + rest
  }

  /** A generated question whose text is already in the bank under the same topic is never added again. */
  lemma RegeneratedIsSkipped(g: GeneratedQuestion, bank: seq<PracticeQuestion>, topicId: int, k: nat)
    requires k < |bank| && bank[k].topicId == topicId && bank[k].questionText == g.questionText
    ensures g !in Fresh([g], bank, topicId)
  {
    ContainsOwnPrefix(g.questionText, DedupPrefix);
  }

  function NewBankQuestion(g: GeneratedQuestion, id: nat, topicId: int): PracticeQuestion {
    PracticeQuestion(id, topicId, g.questionText, g.questionType, g.difficulty, OptionsText(g.options),
                     g.correctAnswer, g.solution, 0, 0.0)
  }

  function NewBankQuestions(gs: seq<GeneratedQuestion>, firstId: nat, topicId: int): (r: seq<PracticeQuestion>)
    ensures |r| == |gs| && forall k :: 0 <= k < |gs| ==> r[k] == NewBankQuestion(gs[k], firstId + k, topicId)
  {
    seq(|gs|, k requires 0 <= k < |gs| => NewBankQuestion(gs[k], firstId + k, topicId))
  }

  function ViewOf(q: PracticeQuestion): PracticeView {
    PracticeView(q.id, q.questionText, q.questionType, q.difficulty, ParsedOptions(q.options), q.usageCount, q.correctRate)
  }

  function Views(qs: seq<PracticeQuestion>): (r: seq<PracticeView>)
    ensures |r| == |qs| && forall k :: 0 <= k < |qs| ==> r[k] == ViewOf(qs[k])
  {
    seq(|qs|, k requires 0 <= k < |qs| => ViewOf(qs[k]))
  }

  datatype QuestionsReply =
    | QuestionsRefused(refusal: Refusal)
    | QuestionsPage(questions: seq<PracticeView>, page: int, pageSize: int, total: nat, totalPages: nat)

  /** `getMistakes`: one page of the user's records whose latest answer is wrong, newest first. */
  function Mistakes(records: seq<PracticeRecord>, userId: Option<int>, page: int, pageSize: int): (r: Option<(seq<PracticeRecord>, nat, nat)>)
    requires page >= 1 && pageSize >= 1
    ensures r.None? <==> !SignedIn(userId)
    ensures r.Some? ==>
      (forall x :: x in r.value.0 ==> x in records && x.userId == userId.value && !x.isCorrect) &&
      |r.value.0| <= pageSize && r.value.2 == Paging.TotalPages(r.value.1, pageSize)
    ensures r.Some? ==>
      r.value.0 == Paging.Page(WrongBy(records, userId.value), page, pageSize) &&
      r.value.1 == |WrongBy(records, userId.value)|
  {
    if !SignedIn(userId) then None
    else
      var wrong := WrongBy(records, userId.value);
      var rows := Paging.Page(wrong, page, pageSize);
      assert forall x :: x in rows ==> x in wrong by {
        forall x | x in rows ensures x in wrong {
          var i :| 0 <= i < |rows| && rows[i] == x;
          assert wrong[Paging.Offset(page, pageSize) + i] == x;
        }
      }
      Some((rows, |wrong|, Paging.TotalPages(|wrong|, pageSize)))
  }

  /** The user's wrongly answered records in store order, which is the order they were created in. */
  function WrongInStoreOrder(records: seq<PracticeRecord>, userId: int): (r: seq<PracticeRecord>)
    ensures |r| <= |records|
    ensures forall x :: x in r <==> x in records && x.userId == userId && !x.isCorrect
  {
    if records == [] then []
    else
      var last := records[|records| - 1];
      var rest := WrongInStoreOrder(records[..|records| - 1], userId);
      assert forall x :: x in records <==> x in records[..|records| - 1] || x == last;
      if last.userId == userId && !last.isCorrect then rest + [last] else rest
  }

  /** The user's wrongly answered records, newest first: the store-order selection reversed. */
  function WrongBy(records: seq<PracticeRecord>, userId: int): (r: seq<PracticeRecord>)
    ensures forall x :: x in r <==> x in records && x.userId == userId && !x.isCorrect
    ensures r == Seqs.Reversed(WrongInStoreOrder(records, userId))
  {
    if records == [] then []
    else
      var rest := WrongBy(records[..|records| - 1], userId);
      var last := records[|records| - 1];
      assert forall x :: x in records <==> x in records[..|records| - 1] || x == last;
      var fwd := WrongInStoreOrder(records[..|records| - 1], userId);
      assert (fwd + [last])[..|fwd|] == fwd;
      if last.userId == userId && !last.isCorrect then [last] + rest else rest
  }

  /** In a store whose ids follow insertion order, the mistakes come with strictly falling ids. */
  lemma {:induction false} MistakesNewestFirst(records: seq<PracticeRecord>, userId: int)
    requires IdsInOrder(records)
    ensures forall i, j | 0 <= i < j < |WrongBy(records, userId)| ::
      WrongBy(records, userId)[i].id > WrongBy(records, userId)[j].id
  {
    if records != [] {
      var pre := records[..|records| - 1];
      var last := records[|records| - 1];
      assert IdsInOrder(pre);
      MistakesNewestFirst(pre, userId);
      var rest := WrongBy(pre, userId);
      forall x | x in rest ensures x.id < last.id {
        var k :| 0 <= k < |pre| && pre[k] == x;
      }
    }
  }

  // ------------------------------------------------------------ the store

  function Key(r: PracticeRecord): (int, int) {
    (r.userId, r.questionId)
  }

  ghost predicate IdsInOrder(records: seq<PracticeRecord>) {
    forall k :: 0 <= k < |records| ==> records[k].id == k + 1
  }

  ghost predicate KeysUnique(records: seq<PracticeRecord>) {
    forall i, j :: 0 <= i < j < |records| ==> Key(records[i]) != Key(records[j])
  }

  ghost predicate AttemptsLogged(records: seq<PracticeRecord>, log: seq<(int, int)>) {
    forall k :: 0 <= k < |records| ==> records[k].attemptCount == Occurrences(log, Key(records[k]))
  }

  ghost predicate LogRecorded(records: seq<PracticeRecord>, log: seq<(int, int)>) {
    forall i :: 0 <= i < |log| ==> FindRecord(records, log[i].0, log[i].1).Some?
  }

  /**
   * The records agree with the log of accepted submissions: ids 1, 2, … in
   * insertion order, at most one record per (user, question), each record's
   * attempt count is how often its pair was submitted, and every submitted
   * pair has a record.
   */
  ghost predicate RecordsAgree(records: seq<PracticeRecord>, log: seq<(int, int)>) {
    IdsInOrder(records) && KeysUnique(records) && AttemptsLogged(records, log) && LogRecorded(records, log)
  }

  /** A user's attempt count on a question is the number of their accepted submissions of it. */
  lemma {:induction false} AttemptsCountSubmissions(records: seq<PracticeRecord>, log: seq<(int, int)>, userId: int, questionId: int)
    requires AttemptsLogged(records, log) && LogRecorded(records, log)
    ensures match FindRecord(records, userId, questionId)
      case Some(k) => records[k].attemptCount == Occurrences(log, (userId, questionId))
      case None => Occurrences(log, (userId, questionId)) == 0
  {
    if FindRecord(records, userId, questionId).None? {
      forall i | 0 <= i < |log|
        ensures log[i] != (userId, questionId)
      {
        assert FindRecord(records, log[i].0, log[i].1).Some?;
      }
    }
  }

  lemma OccurrencesAppend(log: seq<(int, int)>, pair: (int, int))
    ensures forall p :: Occurrences(log + [pair], p) == Occurrences(log, p) + (if p == pair then 1 else 0)
  {
    assert (log + [pair])[..|log|] == log;
  }

  /** One submission keeps the record table in agreement with the log that records it. */
  lemma {:induction false} RecordedStaysAgreed(records: seq<PracticeRecord>, log: seq<(int, int)>, userId: int, questionId: int,
                                               answer: string, isCorrect: bool, timeSpent: int)
    requires RecordsAgree(records, log)
    ensures RecordsAgree(Recorded(records, userId, questionId, answer, isCorrect, timeSpent), log + [(userId, questionId)])
  {
    OccurrencesAppend(log, (userId, questionId));
    AttemptsCountSubmissions(records, log, userId, questionId);
    var after := Recorded(records, userId, questionId, answer, isCorrect, timeSpent);
    match FindRecord(records, userId, questionId)
    case Some(k) =>
      UpdatedKeys(records, k, after[k]);
      UpdatedAttempts(records, log, k, after[k]);
      UpdatedLog(records, log, k, after[k]);
    case None =>
      AppendedKeys(records, after[|records|]);
      AppendedAttempts(records, log, after[|records|]);
      AppendedLog(records, log, after[|records|]);
  }

  lemma {:induction false} UpdatedKeys(records: seq<PracticeRecord>, k: nat, x: PracticeRecord)
    requires IdsInOrder(records) && KeysUnique(records) && k < |records|
    requires x.id == records[k].id && Key(x) == Key(records[k])
    ensures IdsInOrder(records[k := x]) && KeysUnique(records[k := x])
  {
    assert forall i :: 0 <= i < |records| ==> Key(records[k := x][i]) == Key(records[i]);
  }

  lemma {:induction false} UpdatedAttempts(records: seq<PracticeRecord>, log: seq<(int, int)>, k: nat, x: PracticeRecord)
    requires KeysUnique(records) && AttemptsLogged(records, log) && k < |records|
    requires Key(x) == Key(records[k]) && x.attemptCount == records[k].attemptCount + 1
    requires forall p :: Occurrences(log + [Key(x)], p) == Occurrences(log, p) + (if p == Key(x) then 1 else 0)
    ensures AttemptsLogged(records[k := x], log + [Key(x)])
  {
    forall j | 0 <= j < |records| && j != k
      ensures Key(records[j]) != Key(x)
    {
      if j < k {
        assert Key(records[j]) != Key(records[k]);
      } else {
        assert Key(records[k]) != Key(records[j]);
      }
    }
  }

  lemma {:induction false} UpdatedLog(records: seq<PracticeRecord>, log: seq<(int, int)>, k: nat, x: PracticeRecord)
    requires LogRecorded(records, log) && k < |records| && Key(x) == Key(records[k])
    ensures LogRecorded(records[k := x], log + [Key(x)])
  {
    var after := records[k := x];
    var log' := log + [Key(x)];
    forall i | 0 <= i < |log'|
      ensures FindRecord(after, log'[i].0, log'[i].1).Some?
    {
      var j := if i < |log| then FindRecord(records, log[i].0, log[i].1).value else k;
      assert Key(after[j]) == log'[i];
    }
  }

  lemma {:induction false} AppendedKeys(records: seq<PracticeRecord>, x: PracticeRecord)
    requires IdsInOrder(records) && KeysUnique(records)
    requires FindRecord(records, x.userId, x.questionId).None? && x.id == |records| + 1
    ensures IdsInOrder(records + [x]) && KeysUnique(records + [x])
  {
    assert forall i :: 0 <= i < |records| ==> Key(records[i]) != Key(x);
  }

  lemma {:induction false} AppendedAttempts(records: seq<PracticeRecord>, log: seq<(int, int)>, x: PracticeRecord)
    requires AttemptsLogged(records, log)
    requires FindRecord(records, x.userId, x.questionId).None? && x.attemptCount == 1
    requires Occurrences(log, Key(x)) == 0
    requires forall p :: Occurrences(log + [Key(x)], p) == Occurrences(log, p) + (if p == Key(x) then 1 else 0)
    ensures AttemptsLogged(records + [x], log + [Key(x)])
  {
    assert forall i :: 0 <= i < |records| ==> Key(records[i]) != Key(x);
  }

  lemma {:induction false} AppendedLog(records: seq<PracticeRecord>, log: seq<(int, int)>, x: PracticeRecord)
    requires LogRecorded(records, log)
    ensures LogRecorded(records + [x], log + [Key(x)])
  {
    var after := records + [x];
    var log' := log + [Key(x)];
    forall i | 0 <= i < |log'|
      ensures FindRecord(after, log'[i].0, log'[i].1).Some?
    {
      var j := if i < |log| then FindRecord(records, log[i].0, log[i].1).value else |records|;
      assert Key(after[j]) == log'[i];
    }
  }

  /**
   * The question bank and the practice records. Ids are assigned 1, 2, …
   * in insertion order; `submissions` is the log of accepted submissions as
   * (user, question) pairs, kept only to state what the attempt counts count.
   */
  class PracticeStore {
    var questions: seq<PracticeQuestion>
    var records: seq<PracticeRecord>
    ghost var submissions: seq<(int, int)>

    ghost predicate Valid()
      reads this
    {
      (forall k :: 0 <= k < |questions| ==> questions[k].id == k + 1) &&
      RecordsAgree(records, submissions)
    }

    constructor ()
      ensures Valid() && questions == [] && records == [] && submissions == []
    {
      questions := [];
      records := [];
      submissions := [];
    }

    /**
     * `submitPracticeAnswer` as the router calls it: the handler is passed
     * unbound, so `this` is undefined inside it. The checks and the record
     * write happen as written; the statistics refresh `this.updateQuestionStats`
     * then throws, and the catch answers 500. The question is left as it was.
     */
    method SubmitPracticeAnswer(userId: Option<int>, questionId: int, answer: Option<string>, timeSpent: Option<int>)
      returns (reply: SubmitReply)
      requires Valid()
      modifies this
      ensures Valid()
      ensures !SignedIn(userId) ==>
        reply == SubmitRefused(Refusal(StatusUnauthorized, Unauthenticated)) && unchanged(this)
      ensures SignedIn(userId) && FindQuestion(old(questions), questionId).None? ==>
        reply == SubmitRefused(Refusal(StatusNotFound, NoQuestion)) && unchanged(this)
      ensures SignedIn(userId) && FindQuestion(old(questions), questionId).Some? && answer.None? ==>
        reply == SubmitRefused(Refusal(StatusServerError, SubmitFailed)) && unchanged(this)
      ensures SignedIn(userId) && FindQuestion(old(questions), questionId).Some? && answer.Some? ==>
        var q := old(questions)[FindQuestion(old(questions), questionId).value];
        var correct := AnswersMatch(q.correctAnswer, answer.value);
        records == Recorded(old(records), userId.value, questionId, answer.value, correct, timeSpent.GetOr(0)) &&
        submissions == old(submissions) + [(userId.value, questionId)] &&
        questions == old(questions) &&
        reply == SubmitRefused(Refusal(StatusServerError, SubmitFailed))
    {
      if !SignedIn(userId) {
        return SubmitRefused(Refusal(StatusUnauthorized, Unauthenticated));
      }
      var found := FindQuestion(questions, questionId);
      if found.None? {
        return SubmitRefused(Refusal(StatusNotFound, NoQuestion));
      }
      if answer.None? {
        return SubmitRefused(Refusal(StatusServerError, SubmitFailed));
      }
      var q := questions[found.value];
      var correct := AnswersMatch(q.correctAnswer, answer.value);
      var attempts := Record(userId.value, questionId, answer.value, correct, timeSpent.GetOr(0));
      reply := SubmitRefused(Refusal(StatusServerError, SubmitFailed));
    }

    /**
     * `submitPracticeAnswer` as evidently intended, with the handler bound to
     * its class: checks the user, the question and the answer (a missing
     * answer throws on `toLowerCase` and answers 500), then records the
     * submission and refreshes the question's statistics.
     */
    method SubmitPracticeAnswerBound(userId: Option<int>, questionId: int, answer: Option<string>, timeSpent: Option<int>)
      returns (reply: SubmitReply)
      requires Valid()
      modifies this
      ensures Valid()
      ensures !SignedIn(userId) ==>
        reply == SubmitRefused(Refusal(StatusUnauthorized, Unauthenticated)) && unchanged(this)
      ensures SignedIn(userId) && FindQuestion(old(questions), questionId).None? ==>
        reply == SubmitRefused(Refusal(StatusNotFound, NoQuestion)) && unchanged(this)
      ensures SignedIn(userId) && FindQuestion(old(questions), questionId).Some? && answer.None? ==>
        reply == SubmitRefused(Refusal(StatusServerError, SubmitFailed)) && unchanged(this)
      ensures SignedIn(userId) && FindQuestion(old(questions), questionId).Some? && answer.Some? ==>
        var k := FindQuestion(old(questions), questionId).value;
        var q := old(questions)[k];
        var correct := AnswersMatch(q.correctAnswer, answer.value);
        records == Recorded(old(records), userId.value, questionId, answer.value, correct, timeSpent.GetOr(0)) &&
        submissions == old(submissions) + [(userId.value, questionId)] &&
        questions == old(questions)[k := WithStats(q, records)] &&
        reply == Submitted(questionId, correct, q.correctAnswer, q.solution,
                           Occurrences(submissions, (userId.value, questionId)))
    {
      if !SignedIn(userId) {
        return SubmitRefused(Refusal(StatusUnauthorized, Unauthenticated));
      }
      var found := FindQuestion(questions, questionId);
      if found.None? {
        return SubmitRefused(Refusal(StatusNotFound, NoQuestion));
      }
      if answer.None? {
        return SubmitRefused(Refusal(StatusServerError, SubmitFailed));
      }
      var k := found.value;
      var q := questions[k];
      var correct := AnswersMatch(q.correctAnswer, answer.value);
      var attempts := Record(userId.value, questionId, answer.value, correct, timeSpent.GetOr(0));
      UpdateQuestionStats(k);
      reply := Submitted(questionId, correct, q.correctAnswer, q.solution, attempts);
    }

    /** Writes one submission into the record table and the log; returns the record's attempt count. */
    method Record(userId: int, questionId: int, answer: string, correct: bool, timeSpent: int)
      returns (attempts: nat)
      requires Valid()
      modifies this
      ensures Valid()
      ensures questions == old(questions)
      ensures records == Recorded(old(records), userId, questionId, answer, correct, timeSpent)
      ensures submissions == old(submissions) + [(userId, questionId)]
      ensures attempts == Occurrences(submissions, (userId, questionId))
    {
      AttemptsCountSubmissions(records, submissions, userId, questionId);
      OccurrencesAppend(submissions, (userId, questionId));
      RecordedStaysAgreed(records, submissions, userId, questionId, answer, correct, timeSpent);
      ghost var before := records;
      var found := FindRecord(records, userId, questionId);
      if found.Some? {
        var k := found.value;
        var x := records[k];
        records := records[k := x.(userAnswer := answer, isCorrect := correct, timeSpent := timeSpent,
                                   attemptCount := x.attemptCount + 1)];
        attempts := x.attemptCount + 1;
        assert records == Recorded(before, userId, questionId, answer, correct, timeSpent);
      } else {
        records := records + [PracticeRecord(|records| + 1, userId, questionId, answer, correct, timeSpent, 1)];
        attempts := 1;
        assert records == Recorded(before, userId, questionId, answer, correct, timeSpent);
      }
      submissions := submissions + [(userId, questionId)];
    }

    /** `updateQuestionStats`: refreshes usage count and correct rate of the question at index `k`. */
    method UpdateQuestionStats(k: nat)
      requires Valid() && k < |questions|
      modifies this
      ensures Valid()
      ensures records == old(records) && submissions == old(submissions)
      ensures questions == old(questions)[k := WithStats(old(questions)[k], records)]
    {
      questions := questions[k := WithStats(questions[k], records)];
    }

    /**
     * `getPracticeQuestions`: possibly asks the generator for more questions
     * of the topic and stores the new ones, then lists one page of the
     * matching questions, newest first. A failed generation is ignored.
     */
    method GetPracticeQuestions(userId: Option<int>, topicId: Option<int>, difficulty: Option<Difficulty>,
                                questionType: Option<QuestionType>, page: Option<int>, pageSize: Option<int>,
                                generate: Option<string>, topics: seq<Topic>,
                                generated: Result<seq<GeneratedQuestion>, string>)
      returns (reply: QuestionsReply, requested: Option<GenerationRequest>)
      requires Valid() && page.GetOr(1) >= 1 && pageSize.GetOr(10) >= 1
      modifies this
      ensures Valid()
      ensures records == old(records) && submissions == old(submissions)
      ensures !SignedIn(userId) ==>
        reply == QuestionsRefused(Refusal(StatusUnauthorized, Unauthenticated)) && requested.None? &&
        questions == old(questions)
      ensures SignedIn(userId) ==>
        var size := pageSize.GetOr(10);
        var existing := |Matching(old(questions), topicId, difficulty, questionType)|;
        var asks := ShouldGenerate(generate, existing, size) && topicId.Some? &&
                    FindActiveTopic(topics, topicId.value).Some?;
        requested == (if asks then Some(RequestFor(FindActiveTopic(topics, topicId.value).value, difficulty, size)) else None) &&
        questions == old(questions) +
          (if asks && generated.Ok?
           then NewBankQuestions(Fresh(generated.value, old(questions), topicId.value), |old(questions)| + 1, topicId.value)
           else []) &&
        var listed := Matching(questions, topicId, difficulty, questionType);
        reply == QuestionsPage(Views(Paging.Page(listed, page.GetOr(1), size)), page.GetOr(1), size,
                               |listed|, Paging.TotalPages(|listed|, size))
    {
      if !SignedIn(userId) {
        return QuestionsRefused(Refusal(StatusUnauthorized, Unauthenticated)), None;
      }
      var p, size := page.GetOr(1), pageSize.GetOr(10);
      var existing := |Matching(questions, topicId, difficulty, questionType)|;
      requested := None;
      if ShouldGenerate(generate, existing, size) && topicId.Some? {
        var topic := FindActiveTopic(topics, topicId.value);
        if topic.Some? {
          requested := Some(RequestFor(topic.value, difficulty, size));
          if generated.Ok? {
            var added := NewBankQuestions(Fresh(generated.value, questions, topicId.value), |questions| + 1, topicId.value);
            questions := questions + added;
          }
        }
      }
      var listed := Matching(questions, topicId, difficulty, questionType);
      reply := QuestionsPage(Views(Paging.Page(listed, p, size)), p, size, |listed|, Paging.TotalPages(|listed|, size));
    }

    /** `getPracticeStats`: the user's totals and the per-topic breakdown; nothing is written. */
    method GetPracticeStats(userId: Option<int>, topics: seq<Topic>) returns (reply: StatsReply)
      ensures !SignedIn(userId) ==> reply == StatsRefused(Refusal(StatusUnauthorized, Unauthenticated))
      ensures SignedIn(userId) ==>
        var mine := RecordsBy(records, userId.value);
        var t := Totals(mine);
        reply == Stats(t.0, t.1, t.2, t.3, TopicBreakdown(TalliedRows(mine, questions, topics)))
    {
      if !SignedIn(userId) {
        return StatsRefused(Refusal(StatusUnauthorized, Unauthenticated));
      }
      var mine := RecordsBy(records, userId.value);
      var t := Totals(mine);
      var breakdown := CountByTopic(TalliedRows(mine, questions, topics));
      reply := Stats(t.0, t.1, t.2, t.3, breakdown);
    }
  }

  /**
   * One signed-in submission of an answer to an existing question, sent to
   * the handler as routed and to the handler the code evidently intends:
   * the first answers 500, the second reports the verdict.
   */
  method RoutedAnswerFails() returns (routed: SubmitReply, intended: SubmitReply)
    ensures routed == SubmitRefused(Refusal(StatusServerError, SubmitFailed))
    ensures intended.Submitted? && intended.isCorrect && intended.attemptCount == 1
  {
    var q := PracticeQuestion(1, 1, "1 + 1 = ?", FillBlank, Basic, None, "2", "", 0, 0.0);
    var a := new PracticeStore();
    a.questions := [q];
    routed := a.SubmitPracticeAnswer(Some(7), 1, Some("2"), None);
    var b := new PracticeStore();
    b.questions := [q];
    intended := b.SubmitPracticeAnswerBound(Some(7), 1, Some("2"), None);
  }
}
