# A verified model of the tutoring app's decision logic

This project models, in Dafny, the parts of an Express/Vue tutoring application that make decisions or change state:

- **Question audit** (`audit.dfy`, module `AuditService`): `DeepSeekService` receives an audit reply from a second model and handles it as follows.
  - It strips the code fences from the reply.
  - It normalises the parsed JSON object into an audit verdict, with a default for every field.
  - It turns a reply it cannot parse into a rejection verdict.
  - It audits a batch of questions one at a time. A failure rejects only that question, and a pause comes only after a successful audit that is not the last one.
- **Assessments** (`assessments.dfy`):
  - starting an assessment from a generated batch of questions;
  - answering, graded by a case-insensitive, trimmed comparison, and only while the assessment is open;
  - completing at most once, with the score rounded;
  - the paged history, newest first;
  - the detail view.
- **Practice** (`practice.dfy`):
  - the practice record of a user and question, and its attempt count;
  - per-question usage and correct rate;
  - per-user statistics, with the per-topic breakdown built in a map;
  - the question bank: when new questions are generated, and the 20-character-prefix rule that drops duplicates;
  - the paged list of mistakes.
- **Learning plans** (`learning.dfy`):
  - choosing the focus chapters: weak chapters from recent scores, or a fallback to the grade's chapters;
  - tasks shaped by index;
  - task status updates with a sticky completion time;
  - the progress counts.
- **Accounts** (`accounts.dfy`):
  - the registration conflict rule;
  - the order of the login checks;
  - the profile merge, in which a falsy value keeps the old one;
  - the password-change guard;
  - `User.toJSON`, which drops the password hash.
- **Request gates**:
  - the bearer-token middleware (`auth_gate.dfy`, over the request/response exchange of `http.dfy`);
  - the Joi request schemas (`validation.dfy`), modelled as a small interpreter of field rules, with one lemma per schema saying exactly which bodies pass and which message each failure gets.
- **Front end**:
  - the auth store as a class over `user`, `token`, `loading` and a key/value storage map (`auth_store.dfy`, module `Session`);
  - the router's route table and navigation guard (`router.dfy`).

Shared modules:

- `wrappers.dfy`: `Option` and `Result`.
- `seqs.dfy` and `text.dfy`: sequence facts, and JavaScript's `trim`, ASCII `toLowerCase`, `split`, `join` and `startsWith`.
- `json.dfy`: JSON values, truthiness, property access, `JSON.stringify` and a parser, with the round trip proved.
- `paging.dfy`: offset, page count and page slice.
- `questions.dfy`: the generated question and its enumerations.
- `catalog.dfy`: chapters and topics.
- `answers.dfy`: the answer comparison.
- `rates.dfy`: percentages and means as exact rationals.

The database, the two language-model services, bcrypt, JWT, the clock and the browser storage are not modelled, and the operations take their place as follows:

- **Database.** Each controller's tables are sequences held by a store class (`AccountStore`, `AssessmentStore`, `PracticeStore`, `LearningStore`). Ids are given in creation order.
- **Language models.** A model's reply, or a failure, is a parameter. The parse of the audit reply (`JSON.parse`) is a function parameter.
- **bcrypt and JWT.** A password hash is an ideal hash: `Hashed(secret)`, and a check compares secrets. bcrypt itself reads only the first 72 bytes of a password's UTF-8 encoding; the ideal hash reads all of it (see `Accounts.ChangedPasswordLogsIn` under Left out). JWT verification is a function parameter, and signing is represented by the claims a reply carries.
- **Clock and storage.** The clock is a `now` parameter. The browser's `localStorage` is a map field of the auth store.

## Model

| member | source | states |
|---|---|---|
| Text.Trim | backend/src/controllers/AssessmentController.ts:149-150 | the result has no whitespace at either end and is no longer than the input |
| Text.TrimIsInfix | backend/src/controllers/AssessmentController.ts:149-150 | what `trim()` keeps is a slice of the input with only whitespace on either side |
| Text.TrimIdempotent | backend/src/services/DeepSeekService.ts:190 | trimming twice is trimming once |
| Text.TrimPadded | backend/src/controllers/AssessmentController.ts:149-150 | whitespace added around a string does not change what trimming it gives |
| Text.ToLower | backend/src/controllers/AssessmentController.ts:149-150 | lower-casing keeps the length |
| Text.TrimToLowerCommute | backend/src/controllers/AssessmentController.ts:149-150 | lower-casing then trimming is trimming then lower-casing |
| Text.Split | backend/src/middleware/auth.ts:15 | `split` always yields at least one field |
| Text.SplitJoin | backend/src/middleware/auth.ts:15 | joining the fields with the separator gives back the string, and no field holds the separator |
| Text.SplitFirstField | backend/src/middleware/auth.ts:15 | a prefix free of the separator is split off as the first field |
| Json.Get | backend/src/services/DeepSeekService.ts:198-203 | a property is defined exactly when the value is an object with a field of that key |
| Json.GetLast | backend/src/services/DeepSeekService.ts:194-198 | the last field of a key is the one read, as JSON.parse keeps the last duplicate |
| Json.Or | backend/src/services/DeepSeekService.ts:198-203 | `x \|\| d` is `x` when defined and truthy, and `d` otherwise |
| Json.Stringify | backend/src/controllers/AssessmentController.ts:69 | `JSON.stringify` without whitespace, object fields in their order; Json.ParseStringify parses every result back to its value |
| Json.Parse | backend/src/controllers/AssessmentController.ts:86 | `JSON.parse` of a whole text, none where it would throw; Json.ParseStringify shows it inverts Json.Stringify |
| Json.StringRoundTrip | frontend/src/stores/auth.ts:22-41 | parsing the escaped text of a string up to its closing quote gives back the string and what follows |
| Json.ParseStringify | frontend/src/stores/auth.ts:22-41 | parsing what JSON.stringify wrote gives back the same value |
| Catalog.FindChapter | backend/src/controllers/LearningController.ts:31-45 | the chapter with the id, or none exactly when no chapter has it |
| AuditService.Strip | backend/src/services/DeepSeekService.ts:187-189 | each occurrence of the fence text is deleted together with the whitespace after it; the result is never longer |
| AuditService.Clean | backend/src/services/DeepSeekService.ts:187-190 | the text handed to `JSON.parse` is trimmed and no longer than the reply |
| AuditService.StripAbsent | backend/src/services/DeepSeekService.ts:187-189 | text in which the fence occurs nowhere is left unchanged |
| AuditService.StripLeavesNoFence | backend/src/services/DeepSeekService.ts:189 | removing every "```" cannot join the remaining pieces into a new "```" |
| AuditService.CleanNoFence | backend/src/services/DeepSeekService.ts:187-190 | a cleaned reply contains no "```" anywhere |
| AuditService.CleanWithoutBackticks | backend/src/services/DeepSeekService.ts:187-190 | a reply without backticks is only trimmed |
| AuditService.CleanIdempotent | backend/src/services/DeepSeekService.ts:187-190 | cleaning a cleaned reply changes nothing |
| AuditService.CleanFencedBlock | backend/src/services/DeepSeekService.ts:187-190 | a reply "```json\n body \n```" around a backtick-free body cleans to the trimmed body |
| AuditService.ArrayField | backend/src/services/DeepSeekService.ts:200-201 | a field is kept when it is an array and is the empty list otherwise |
| AuditService.NonEmpty | backend/src/services/DeepSeekService.ts:202-204 | `s \|\| undefined` keeps a string exactly when it is present and not empty |
| AuditService.Normalise | backend/src/services/DeepSeekService.ts:197-205 | every verdict field is the parsed field when truthy and its default (`false`, `0`, `[]`, absent, the default summary) otherwise; the result is in normal form |
| AuditService.NormaliseFixpoint | backend/src/services/DeepSeekService.ts:197-205 | a normal verdict written back as the requested JSON object normalises to itself |
| AuditService.VerdictObjectFields | backend/src/services/DeepSeekService.ts:131-139 | the object of a verdict yields each of its fields under the key the prompt asks for |
| AuditService.NoScoreRule | backend/src/services/DeepSeekService.ts:141-146 | the score-80 rule stated in the prompt is not enforced: `isValid` and `score` are kept exactly as sent |
| AuditService.ReadVerdict | backend/src/services/DeepSeekService.ts:186-205 | reading fails exactly when `JSON.parse` throws or yields `null` (whose property read throws); a read verdict is in normal form |
| AuditService.ParseFailure | backend/src/services/DeepSeekService.ts:215-227 | the rejection verdict for an unreadable reply keeps the raw content and is in normal form |
| AuditService.FirstMessage | backend/src/services/DeepSeekService.ts:177 | `choices[0].message`, read only when the reply has one |
| AuditService.Usable | backend/src/services/DeepSeekService.ts:173-183 | the call succeeded and its first message carries content that is not blank, which is when the audit goes on to parse |
| AuditService.AuditMathQuestion | backend/src/services/DeepSeekService.ts:148-242 | the audit throws exactly when the call failed or its first message has no non-blank content, always with the "DeepSeek审核失败: " prefix; otherwise the verdict is in normal form |
| AuditService.AuditErrors | backend/src/services/DeepSeekService.ts:173-183 | the message rethrown for each failure: the call's error, the missing choices/message, the `length` read of absent content, blank content |
| AuditService.AuditParseFailure | backend/src/services/DeepSeekService.ts:215-227 | an unreadable reply yields the rejection verdict with score 0, the fixed issue and suggestion, the parse error in the summary and the raw content |
| AuditService.AuditFencedReply | backend/src/services/DeepSeekService.ts:186-205 | a fenced reply around a backtick-free body is parsed from the trimmed body and its verdict is that object's normal form |
| AuditService.FencedNotBlank | backend/src/services/DeepSeekService.ts:181 | a fenced reply is never blank, so it passes the emptiness check |
| AuditService.ReasoningParseFailure | backend/src/services/DeepSeekService.ts:310-318 | the rejection verdict of the reasoning audit keeps the reasoning text when there is one, else the content |
| AuditService.AuditWithReasoning | backend/src/services/DeepSeekService.ts:268-327 | the reasoning audit throws exactly when the call failed or a property on the way to the content is missing, always with its own prefix; it has no emptiness check |
| AuditService.ReasoningErrors | backend/src/services/DeepSeekService.ts:285-289 | which property read throws for each malformed reply (`0`, `message`, `content`, `length`) |
| AuditService.ReasoningParseFailureVerdict | backend/src/services/DeepSeekService.ts:310-319 | an unreadable reasoning reply, even an empty one, yields the rejection verdict with the parse error in the summary |
| AuditService.BatchFailure | backend/src/services/DeepSeekService.ts:352-361 | the batch's rejection is invalid, scores 0 and has one issue carrying the error text |
| AuditService.BatchVerdict | backend/src/services/DeepSeekService.ts:341-362 | a batch item is the audit's verdict, or the rejection for the error it threw |
| AuditService.BatchSpec | backend/src/services/DeepSeekService.ts:333-369 | one verdict per question, item `k` from call `k` alone |
| AuditService.BatchAuditQuestions | backend/src/services/DeepSeekService.ts:333-369 | the loop returns the batch's verdicts in question order and pauses exactly after each successfully audited question but the last |
| AuditService.AuditOrReject | backend/src/services/DeepSeekService.ts:341-362 | one `try`/`catch` step gives the batch verdict and reports whether the audit succeeded |
| AuditService.BatchFailureIsRejection | backend/src/services/DeepSeekService.ts:352-361 | a failed item is a rejection whose issue starts with "审核失败: Error: DeepSeek审核失败: " |
| Answers.AnswersMatch | backend/src/controllers/PracticeController.ts:171-172 | two answers agree when their lower-cased, trimmed texts are equal; the lemmas below show the check symmetric and blind to ASCII case and surrounding whitespace |
| Answers.MatchByTrimmedLower | backend/src/controllers/AssessmentController.ts:149-150 | the answer check compares the same strings when trimming comes before lower-casing |
| Answers.MatchSymmetric | backend/src/controllers/AssessmentController.ts:149-150 | the answer check is symmetric |
| Answers.MatchIgnoresCase | backend/src/controllers/AssessmentController.ts:149-150 | an upper-cased answer matches exactly when the answer does |
| Answers.MatchIgnoresPadding | backend/src/controllers/AssessmentController.ts:149-150 | surrounding whitespace does not change the verdict |
| Catalog.ActiveTopics | backend/src/controllers/AssessmentController.ts:24-31 | the active topics of a chapter, and only those |
| Catalog.FindActiveChapter | backend/src/controllers/AssessmentController.ts:22-32 | no result exactly when no chapter has the id, is active and has an active topic (the topic include is an inner join); a result is the first such chapter, carrying only its active topics, which are not empty |
| Assessments.CountCorrect | backend/src/controllers/AssessmentController.ts:210-212 | the number of correct questions; it equals the total exactly when all are correct and is 0 exactly when none is |
| Assessments.Score | backend/src/controllers/AssessmentController.ts:213 | the integer nearest to 100·correct/total with halves rounded up, at most 100, and 0 without questions |
| Assessments.AllCorrectScoresFull | backend/src/controllers/AssessmentController.ts:213 | all answers right scores 100 |
| Assessments.FullScoreMeansAllCorrect | backend/src/controllers/AssessmentController.ts:213 | with fewer than 200 questions, 100 means every answer is right |
| Assessments.FullScoreWithOneWrong | backend/src/controllers/AssessmentController.ts:213 | 199 right out of 200 rounds to 100, so the bound above is needed |
| Assessments.NoneCorrectScoresZero | backend/src/controllers/AssessmentController.ts:213 | no right answer scores 0 |
| Assessments.IsOpen | backend/src/controllers/AssessmentController.ts:135 | an assessment is open exactly while its `completed_at` is null; answers and completion are refused once it is set (Assessments.NoAnswerAfterCompletion, Assessments.CompletesOnce) |
| Assessments.NewAssessment | backend/src/controllers/AssessmentController.ts:43-51 | a new record is open with nothing answered, scored or timed, and carries the user, chapter and requested count |
| Assessments.NewAssessmentAsWritten | backend/src/models/Assessment.ts:67-68 | the record as stored under the class's timestamp settings: the intended new record, except that it is already closed with the insert time as its completion time |
| Assessments.StartedAsWrittenIsClosed | backend/src/controllers/AssessmentController.ts:43-51 | for a fresh id, the record as stored refuses every answer with 400 and its own completion with 400 and already counts among the user's completed assessments with score 0, while the intended record takes answers and is accepted for completion and is not yet completed |
| Assessments.StoreQuestion | backend/src/controllers/AssessmentController.ts:65-76 | the row `AssessmentQuestion.create` writes: the generated fields, options and knowledge points as JSON text, no answer, not correct, and its order index (Assessments.StoredQuestionsFresh) |
| Assessments.StoreAll | backend/src/controllers/AssessmentController.ts:63-79 | the generated questions stored in order with consecutive ids and order indexes 1..n |
| Assessments.StoredQuestionsFresh | backend/src/controllers/AssessmentController.ts:65-77 | a stored question belongs to the new assessment, is unanswered and not correct, and keeps its answer and options |
| Assessments.ClientView | backend/src/controllers/AssessmentController.ts:82-88 | the question as the client gets it: id, text, type, parsed options and order index, without the correct answer |
| Assessments.ClientViews | backend/src/controllers/AssessmentController.ts:82-88 | one client view per stored question, in order |
| Assessments.ClientSeesGenerated | backend/src/controllers/AssessmentController.ts:63-88 | the client sees each generated question's text, type and options (stored as JSON and parsed back) numbered from 1, without its answer |
| Assessments.StartRefusal | backend/src/controllers/AssessmentController.ts:14-40 | a start goes ahead exactly when there is a user and an active chapter with an active topic; in order, no user gives 401, no chapter 404 and a chapter without topics 400 |
| Assessments.NoTopicsUnreachable | backend/src/controllers/AssessmentController.ts:38-40 | the 400 refusal for a chapter without topics is never given for a chapter found by the lookup |
| Assessments.ChapterWithoutTopicsNotFound | backend/src/controllers/AssessmentController.ts:22-36 | a signed-in start on a chapter whose topics are all inactive answers 404, chapter not found |
| Assessments.FindOwned | backend/src/controllers/AssessmentController.ts:127-129 | the first record with that id and owner, or none exactly when there is none |
| Assessments.FindQuestion | backend/src/controllers/AssessmentController.ts:140-142 | the first question with that id in that assessment, or none exactly when there is none |
| Assessments.SubmitCheck | backend/src/controllers/AssessmentController.ts:119-150 | each refusal in the source's order: no user 401, not the user's assessment 404, completed 400, no such question in it 404, no answer 500; accepted exactly when none applies, at the index of the question, which belongs to the assessment the user owns and is open |
| Assessments.NoAnswerAfterCompletion | backend/src/controllers/AssessmentController.ts:135-137 | a completed assessment refuses answers with 400 |
| Assessments.FirstOwned | backend/src/controllers/AssessmentController.ts:127-129 | the lookup by id and owner finds record k when k is the user's and no earlier record has that id |
| Assessments.Answered | backend/src/controllers/AssessmentController.ts:149-156 | the question records the answer, and is correct exactly when the answer check passes |
| Assessments.QuestionsOf | backend/src/controllers/AssessmentController.ts:185-192 | the questions of one assessment, and only those |
| Assessments.CompleteCheck | backend/src/controllers/AssessmentController.ts:177-207 | each refusal in order: no user 401, not the user's assessment 404, already completed 400; accepted exactly otherwise, at the index of the first record with that id and owner, which is open |
| Assessments.Graded | backend/src/controllers/AssessmentController.ts:209-221 | the graded record is closed at `now` with the count of correct answers and their score |
| Assessments.CompletesOnce | backend/src/controllers/AssessmentController.ts:205-207 | completing a graded assessment again is refused with 400 |
| Assessments.NoAnswerAfterGrading | backend/src/controllers/AssessmentController.ts:135-137 | once graded, an assessment refuses answers with 400 |
| Assessments.Review | backend/src/controllers/AssessmentController.ts:231-239 | a question of the completion reply: text, type, correct and given answer, verdict and solution |
| Assessments.Reviews | backend/src/controllers/AssessmentController.ts:232-240 | one review per question, in order |
| Assessments.InsertByTime | backend/src/controllers/AssessmentController.ts:275 | insertion keeps the rows most recent first and is a permutation of the rows plus the new one |
| Assessments.OrderByRecent | backend/src/controllers/AssessmentController.ts:275 | the rows sorted most recently completed first, as a permutation |
| Assessments.CompletedBy | backend/src/controllers/AssessmentController.ts:264-267 | the user's completed assessments, and only those |
| Assessments.History | backend/src/controllers/AssessmentController.ts:253-290 | refused exactly without a user; otherwise the rows are exactly the requested page of the user's completed assessments ordered most recent first, at most `pageSize` of them, with their total and the page count |
| Assessments.HistoryRows | backend/src/controllers/AssessmentController.ts:263-279 | every row of a history page is a completed assessment of the user, and the page keeps the order |
| Assessments.PageKeepsOrder | backend/src/controllers/AssessmentController.ts:275-277 | a page of a most-recent-first list is itself most recent first |
| Assessments.DetailOf | backend/src/controllers/AssessmentController.ts:331-334 | a question of the detail reply, with its options parsed back from their JSON text |
| Assessments.Details | backend/src/controllers/AssessmentController.ts:332-335 | one detail per question with its options parsed back |
| Assessments.GetDetail | backend/src/controllers/AssessmentController.ts:301-343 | refused exactly without a user or without an owned record; otherwise the record with the details of its questions |
| Assessments.DetailShowsAnswersWhileOpen | backend/src/controllers/AssessmentController.ts:310-343 | the detail view shows correct answers and solutions of an assessment still open |
| Assessments.AssessmentStore.StartAssessment | backend/src/controllers/AssessmentController.ts:12-112 | a refused start writes nothing; otherwise the record is appended, then the questions if generation succeeded, and the reply lists them without answers; a failed generation leaves the open record and answers 500 |
| Assessments.AssessmentStore.SubmitAnswer | backend/src/controllers/AssessmentController.ts:117-170 | a refused submission writes nothing; otherwise only the named question changes, to the answer and its verdict |
| Assessments.AssessmentStore.CompleteAssessment | backend/src/controllers/AssessmentController.ts:175-248 | a refused completion writes nothing; otherwise only the record changes, to its grade, and the reply reports counts, score and reviews |
| Practice.RecordsOf | backend/src/controllers/PracticeController.ts:379-381 | the records of one question, and only those |
| Practice.CountCorrect | backend/src/controllers/PracticeController.ts:384 | the number of correct records; it equals their number exactly when all are correct |
| Practice.WithStats | backend/src/controllers/PracticeController.ts:377-396 | only usage and rate change: usage is the question's record count and the rate is the percentage of those records that are correct, 0 without records |
| Rates.Percent | backend/src/controllers/PracticeController.ts:385-386 | the exact percentage, between 0 and 100, 0 without records, 100 exactly when all are correct and 0 exactly when none is |
| Practice.FindQuestion | backend/src/controllers/PracticeController.ts:165-168 | the question with that id, or none exactly when there is none |
| Practice.FindRecord | backend/src/controllers/PracticeController.ts:175-180 | the user's record on that question, or none exactly when there is none |
| Practice.Recorded | backend/src/controllers/PracticeController.ts:175-200 | an existing record of the pair is updated where it stands and no other record changes; otherwise one record with one attempt is appended after the others |
| Practice.RecordedAttempt | backend/src/controllers/PracticeController.ts:182-200 | after a submission the user's record holds its answer, verdict and time, and its attempt count is one more than before, or 1 for a new record |
| Practice.Occurrences | backend/src/controllers/PracticeController.ts:188 | how often a (user, question) pair was submitted; positive exactly when it was |
| Practice.AttemptsCountSubmissions | backend/src/controllers/PracticeController.ts:182-199 | a record's attempt count is the number of accepted submissions of its pair, and a pair without a record was never submitted |
| Practice.RecordedStaysAgreed | backend/src/controllers/PracticeController.ts:182-200 | one submission keeps ids in order, one record per (user, question), and attempt counts equal to submission counts |
| Practice.TopicNameOf | backend/src/controllers/PracticeController.ts:339-340 | a record's topic name is kept only when it is truthy |
| Practice.FirstSeen | backend/src/controllers/PracticeController.ts:337-348 | the topic names in the order the map first sees them, without repeats, exactly the names that occur |
| Practice.CountTopic | backend/src/controllers/PracticeController.ts:345 | the rows of one topic, at most all rows |
| Practice.CountTopicCorrect | backend/src/controllers/PracticeController.ts:346 | the correct rows of one topic, at most that topic's rows |
| Practice.TopicBreakdown | backend/src/controllers/PracticeController.ts:350-355 | one entry per distinct topic name in first-seen order, with its counts and rate |
| Practice.BreakdownEntries | backend/src/controllers/PracticeController.ts:341-355 | every listed topic was seen at least once, has no more correct than total, and a rate between 0 and 100 |
| Practice.BreakdownSumsNamed | backend/src/controllers/PracticeController.ts:338-348 | the topic totals add up to the number of records that have a topic name |
| Practice.CountByTopic | backend/src/controllers/PracticeController.ts:336-355 | the map loop computes exactly the per-topic breakdown |
| Practice.TallyAdvance | backend/src/controllers/PracticeController.ts:339-347 | one pass of the loop body keeps the map equal to the counts of the rows seen so far |
| Practice.AppendRow | backend/src/controllers/PracticeController.ts:341-346 | one more row adds a new name at the end or none, and bumps only its own topic's counters |
| Practice.Listed | backend/src/controllers/PracticeController.ts:350-355 | the map's entries in insertion order are the breakdown |
| Practice.RecordsBy | backend/src/controllers/PracticeController.ts:318-319 | the records of one user, and only those |
| Practice.TalliedRows | backend/src/controllers/PracticeController.ts:318-340 | each of the user's records reduced to its topic name and verdict, in order |
| Practice.Totals | backend/src/controllers/PracticeController.ts:300-315 | the total, the correct count, the rest (adding up to the total) and the rate: the correct count as a percentage of the total, 0 without records |
| Practice.Matches | backend/src/controllers/PracticeController.ts:30-33 | a question passes exactly the filters that are given: topic, difficulty and type, each checked only when present |
| Practice.Matching | backend/src/controllers/PracticeController.ts:30-33 | the bank questions that pass every given filter, and only those |
| Practice.ShouldGenerate | backend/src/controllers/PracticeController.ts:36-41 | generation runs when `generate` is the text "true" or when fewer matching questions are stored than the page size |
| Practice.RequestFor | backend/src/controllers/PracticeController.ts:59-63 | the generator is asked for `max(pageSize, 5)` questions |
| Practice.Duplicate | backend/src/controllers/PracticeController.ts:69-73 | a generated text is a duplicate exactly when a stored question of the same topic contains its first 20 characters (counted as under "## Left out") |
| Practice.Fresh | backend/src/controllers/PracticeController.ts:66-91 | the generated questions kept are those whose first 20 characters occur in no stored question text of the topic |
| Practice.RegeneratedIsSkipped | backend/src/controllers/PracticeController.ts:69-76 | a question whose text is already stored under the topic is not added again |
| Practice.NewBankQuestion | backend/src/controllers/PracticeController.ts:77-88 | the row `create` writes: the generated fields and topic, options as JSON text or null, usage 0 and rate 0 |
| Practice.NewBankQuestions | backend/src/controllers/PracticeController.ts:77-87 | the new questions get consecutive ids, the topic, zero usage and rate |
| Practice.ViewOf | backend/src/controllers/PracticeController.ts:123-132 | the client view: id, text, type, difficulty, parsed options and statistics, without the answer or the solution |
| Practice.Views | backend/src/controllers/PracticeController.ts:124-133 | one client view per question, in order, without answer or solution |
| Practice.Mistakes | backend/src/controllers/PracticeController.ts:225-282 | refused exactly without a user; otherwise the rows are exactly the requested page of the user's wrongly answered records, newest first, with their total and the page count |
| Practice.WrongInStoreOrder | backend/src/controllers/PracticeController.ts:236-240 | exactly the user's wrongly answered records, in store order |
| Practice.WrongBy | backend/src/controllers/PracticeController.ts:235-239 | the user's records whose answer is wrong, and only those, newest first: the selection in store order, reversed |
| Practice.MistakesNewestFirst | backend/src/controllers/PracticeController.ts:259 | in a store whose ids follow insertion order, the mistakes come with strictly falling ids, i.e. latest created first |
| Practice.PracticeStore.SubmitPracticeAnswer | backend/src/controllers/PracticeController.ts:155-220 | as routed: no user, no question or no answer writes nothing and answers 401, 404 or 500; otherwise the record table takes the submission, the question is left unchanged and the reply is 500, because the statistics refresh throws |
| Practice.PracticeStore.SubmitPracticeAnswerBound | backend/src/controllers/PracticeController.ts:155-220 | as intended: the same refusals; otherwise the record table takes the submission, the question's statistics are refreshed from the new records and the reply carries the verdict, the answer, the solution and the attempt count |
| Practice.RoutedAnswerFails | backend/src/routes/practice.ts:14 | one correct signed-in answer to an existing question: the handler as routed answers 500, the intended one reports it correct on the first attempt |
| Practice.PracticeStore.Record | backend/src/controllers/PracticeController.ts:174-200 | the submission is written as one more attempt on the user's record or as a new record with one attempt |
| Practice.PracticeStore.UpdateQuestionStats | backend/src/controllers/PracticeController.ts:377-400 | only the question at that index changes, to its refreshed statistics |
| Practice.PracticeStore.GetPracticeQuestions | backend/src/controllers/PracticeController.ts:13-150 | refused without a user; otherwise generation is requested exactly when asked for or too few questions match and the topic is active, only fresh questions are appended, and one page of the matching questions is listed newest first |
| Practice.PracticeStore.GetPracticeStats | backend/src/controllers/PracticeController.ts:293-372 | refused without a user; otherwise the user's totals and the per-topic breakdown; nothing is written |
| Catalog.FindActiveTopic | backend/src/controllers/PracticeController.ts:45-54 | the first active topic with that id, or none exactly when there is none |
| Catalog.FindTopic | backend/src/controllers/PracticeController.ts:326-329 | the topic with that id, or none exactly when there is none |
| Paging.Offset | backend/src/controllers/AssessmentController.ts:261 | `(page - 1) * pageSize`: never negative from page 1 on with a page size of 0 or more, and negative for a page below 1 with a positive page size |
| Paging.TotalPages | backend/src/controllers/PracticeController.ts:142 | `Math.ceil(count / size)`: the least page count that holds all rows |
| Paging.Page | backend/src/controllers/PracticeController.ts:102-120 | `LIMIT`/`OFFSET`: at most `pageSize` rows, the rows from the offset on in order, empty past the end |
| Paging.RowOnPage | backend/src/controllers/PracticeController.ts:102-120 | every row is on one page within the page count, at its position there |
| Paging.PastLastPage | backend/src/controllers/PracticeController.ts:102-142 | pages past the page count are empty |
| Questions.Strings | backend/src/controllers/PracticeController.ts:82 | a list of strings as a JSON array of the same strings |
| Questions.OptionsText | backend/src/controllers/PracticeController.ts:82 | options are stored as text exactly when they were generated |
| Questions.OptionsRoundTrip | backend/src/controllers/PracticeController.ts:82-129 | stored options parse back to the options that were generated |
| Rates.Mean | backend/src/controllers/LearningController.ts:341-343 | the mean times the count is the sum, 0 for an empty list |
| Rates.SumBounded | backend/src/controllers/LearningController.ts:341-343 | a sum of values at most `b` is at most `b` times their number |
| Rates.MeanBounded | backend/src/controllers/LearningController.ts:341-343 | the mean respects every bound the values respect |
| Learning.Recent | backend/src/controllers/LearningController.ts:31-45 | the user's completed assessments, most recent first: as many as there are up to `limit`, and none left out is completed later than one kept |
| Learning.PrefixKeepsNewest | backend/src/controllers/LearningController.ts:43-44 | a prefix of a most-recent-first sequence leaves out nothing completed later than what it keeps |
| Learning.ChapterName | backend/src/controllers/LearningController.ts:50 | `a.chapter?.name`: the name of the assessment's chapter, none when that chapter is missing |
| Learning.WeakNames | backend/src/controllers/LearningController.ts:48-51 | the names, all non-empty, of the chapters of rows scoring below 70, and only those |
| Learning.WeakChapters | backend/src/controllers/LearningController.ts:31-51 | the weak chapter names among the user's 10 most recent completed assessments |
| Learning.FocusChapters | backend/src/controllers/LearningController.ts:54-64 | a request that is present is used as given, even when it is empty; otherwise the first three weak chapters; when the chosen list is empty, the first three active chapters of the grade |
| Learning.FocusFromWeakOrGrade | backend/src/controllers/LearningController.ts:54-64 | without a request every focus chapter is weak or of the grade, and only weak ones when there are any |
| Catalog.ActiveNamesOfGrade | backend/src/controllers/LearningController.ts:58-63 | the names of the grade's active chapters, and only those |
| Catalog.FindChapterNamed | backend/src/controllers/LearningController.ts:88-90 | the first active chapter with that name, or none exactly when there is none |
| Learning.NewPlan | backend/src/controllers/LearningController.ts:75-83 | the plan is active, titled after the user, holds the generated text and ends 30 days after it starts |
| Learning.TaskFor | backend/src/controllers/LearningController.ts:93-102 | the task for focus index `i` is pending, estimated at 10 hours, due `i + 1` weeks out, and of high priority exactly for index 0 |
| Learning.TasksFrom | backend/src/controllers/LearningController.ts:86-108 | at most one task per focus chapter, numbered consecutively, all pending in the new plan |
| Learning.TaskHasIndex | backend/src/controllers/LearningController.ts:86-108 | every task was made for a focus chapter that an active chapter carries |
| Learning.IndexHasTask | backend/src/controllers/LearningController.ts:86-108 | every focus chapter that an active chapter carries gets its task |
| Learning.PlanTaskShape | backend/src/controllers/LearningController.ts:96-101 | a task is of high priority exactly when it is due one week out, and each is titled after its focus chapter |
| Learning.StatusFromText | backend/src/controllers/LearningController.ts:243-267 | the status text maps to pending, in progress and completed exactly for its three column values |
| Learning.WithStatus | backend/src/controllers/LearningController.ts:262-267 | only the status changes, and the completion time is set exactly when the new status is completed |
| Learning.CompletionTimeSticks | backend/src/controllers/LearningController.ts:262-265 | a completion time, once set, survives later status changes |
| Learning.PlanOwner | backend/src/controllers/LearningController.ts:246-255 | the owner of the plan with that id, or none exactly when there is no such plan |
| Learning.OwnedTask | backend/src/controllers/LearningController.ts:246-259 | the task with that id whose plan is the user's, or none exactly when there is none |
| Learning.CountStatus | backend/src/controllers/LearningController.ts:319 | the tasks of one status, at most all tasks |
| Learning.StatusCountsCover | backend/src/controllers/LearningController.ts:318-359 | completed, in-progress and pending tasks add up to all tasks |
| Learning.TasksOfPlan | backend/src/controllers/LearningController.ts:297-302 | the tasks of one plan, and only those |
| Learning.ActivePlanOf | backend/src/controllers/LearningController.ts:295-303 | the user's first active plan, or none exactly when there is none |
| Learning.Scores | backend/src/controllers/LearningController.ts:342 | the scores of the rows, in order |
| Learning.LearningProgress | backend/src/controllers/LearningController.ts:287-368 | refused exactly without a user; no active plan exactly when the user has none; otherwise the user's first active plan, the completed, in-progress and pending counts of its tasks, their sum as total, the completed share as the rate, and the recent results and their mean score taken entry by entry from the user's 5 latest completed assessments |
| Learning.AverageIsPercentage | backend/src/controllers/LearningController.ts:341-343 | when all scores are percentages, so is their average |
| Learning.ScoreText | backend/src/models/Assessment.ts:54-58 | a score reaches the handler as its digits followed by `.00` |
| Learning.PointsOfConcatenation | backend/src/controllers/LearningController.ts:342 | the concatenation of n text scores holds exactly n decimal points |
| Learning.PointsOfScoreText | backend/src/models/Assessment.ts:54-58 | the text of one score holds exactly one decimal point |
| Learning.ScoreConcatenation | backend/src/controllers/LearningController.ts:342 | the concatenated text starts with the `0` the reduce starts from |
| Learning.DecimalValue | backend/src/controllers/LearningController.ts:342 | JavaScript's number conversion of digits, at most one point and digits (properties in PointsOfDecimal and PointedValue) |
| Learning.PointsOfDecimal | backend/src/controllers/LearningController.ts:342 | a text with a number value holds at most one decimal point |
| Learning.PointedValue | backend/src/controllers/LearningController.ts:342 | digits, a point and digits read as the whole part plus the fraction |
| Learning.Pointed | backend/src/controllers/LearningController.ts:342 | a zero fraction adds nothing to the whole part |
| Learning.Pow10 | backend/src/controllers/LearningController.ts:342 | a power of ten is positive, so the fraction's divisor is never zero |
| Learning.NoPoint | backend/src/controllers/LearningController.ts:342 | a digit string holds no decimal point |
| Learning.LeadingZeroValue | backend/src/controllers/LearningController.ts:342 | the leading `0` of the reduce does not change the value of the digits after it |
| Learning.OneScoreValue | backend/src/controllers/LearningController.ts:342 | the concatenation of one score reads back as that score |
| Learning.ConcatenationValue | backend/src/controllers/LearningController.ts:341-343 | the concatenated scores read as the one score, and as NaN once there are two or more |
| Learning.Quotient | backend/src/controllers/LearningController.ts:342 | NaN divided by the row count stays NaN; a number is divided exactly |
| Learning.AverageAsWritten | backend/src/controllers/LearningController.ts:341-343 | the average as written: 0 without rows, the score itself for one row, and NaN exactly when there are two or more |
| Learning.AverageAsWrittenIsMean | backend/src/controllers/LearningController.ts:341-343 | the average as written equals the mean exactly when there is at most one row |
| Learning.TwoScoresAverage | backend/src/controllers/LearningController.ts:341-343 | scores 80 and 70 average to NaN as written and to 75 as intended |
| Learning.ProgressAverageAsWritten | backend/src/controllers/LearningController.ts:341-343 | in every progress reply, the average as written equals the reply's average exactly when at most one recent assessment is listed |
| Learning.AddPlanKeepsTables | backend/src/controllers/LearningController.ts:75-106 | a new plan stored with its tasks keeps ids in order and every task on a stored plan |
| Learning.LearningStore.GenerateLearningPlan | backend/src/controllers/LearningController.ts:15-142 | 401, 404 and a generator failure write nothing; otherwise exactly one plan and its tasks are appended |
| Learning.LearningStore.UpdateTaskStatus | backend/src/controllers/LearningController.ts:236-282 | 401, 404 and an unknown status write nothing; otherwise only the task's status and completion time change |
| Accounts.ToJSON | backend/src/models/User.ts:129-133 | the public form of a user lists every attribute in column order and has no `password_hash` |
| Accounts.ToJSONShowsIdentity | backend/src/models/User.ts:129-133 | the public form yields the user's id, username and email |
| Accounts.ToJSONShowsProfile | backend/src/models/User.ts:129-133 | the public form yields the user's name, grade and last login |
| Accounts.IndexOfId | backend/src/controllers/AuthController.ts:107-110 | the user with that id, or none exactly when there is none |
| Accounts.IndexOfEmail | backend/src/controllers/AuthController.ts:62-65 | the user with that email, or none exactly when there is none |
| Accounts.FindConflict | backend/src/controllers/AuthController.ts:12-19 | an existing user with the email or the username, or none exactly when there is none |
| Accounts.ConflictMessage | backend/src/controllers/AuthController.ts:21-25 | the duplicate message names the email exactly when the clashing user has that email, and the username otherwise |
| Accounts.NewUser | backend/src/controllers/AuthController.ts:28-36 | the new account is active, never logged in, and its hash matches the registered password |
| Accounts.RegisterKeepsDistinct | backend/src/controllers/AuthController.ts:12-36 | a registration that passes the duplicate check keeps emails and usernames unique |
| Accounts.CheckLogin | backend/src/controllers/AuthController.ts:59-76 | 401 exactly for an unknown email or a wrong password, then 403 exactly for an account that is not active, and admission exactly otherwise |
| Accounts.EmailFindsAccount | backend/src/controllers/AuthController.ts:62 | with unique emails, the lookup by email finds exactly the account that has it |
| Accounts.RegisteredCanLogIn | backend/src/controllers/AuthController.ts:7-97 | a freshly registered account is admitted with the password it registered with |
| Accounts.ChangedPasswordLogsIn | backend/src/controllers/AuthController.ts:156-184 | after a password change the new password passes the password check and a different old one is refused |
| Accounts.Profile | backend/src/controllers/AuthController.ts:100-120 | 401 exactly without a user, 404 exactly for an unknown id, otherwise that user's public form |
| Accounts.Keep | backend/src/controllers/AuthController.ts:138-141 | `given \|\| current`: a non-empty value replaces the column, anything else keeps it |
| Accounts.KeepOptional | backend/src/controllers/AuthController.ts:139-142 | the same merge for a nullable column |
| Accounts.Merged | backend/src/controllers/AuthController.ts:137-143 | exactly the five profile columns are merged; identity, hash, status and last login are kept |
| Accounts.EmptyEditKeepsUser | backend/src/controllers/AuthController.ts:137-143 | an edit with every field missing or empty changes nothing |
| Accounts.MergeIdempotent | backend/src/controllers/AuthController.ts:137-143 | applying the same edit twice is applying it once |
| Accounts.MergeNeverClears | backend/src/controllers/AuthController.ts:137-143 | a filled column is never blanked by an edit |
| Accounts.MergeKeepsDistinct | backend/src/controllers/AuthController.ts:137-143 | a profile edit keeps emails and usernames unique |
| Accounts.RehashKeepsDistinct | backend/src/controllers/AuthController.ts:177 | replacing a password hash or a login time keeps emails and usernames unique |
| Accounts.AccountStore.Register | backend/src/controllers/AuthController.ts:7-54 | a duplicate is refused with 400 and the right message and writes nothing; otherwise exactly the new account is appended and answered with its public form and token claims |
| Accounts.AccountStore.Login | backend/src/controllers/AuthController.ts:57-97 | a refused login writes nothing; an admitted one changes only that user's last login and answers with the public form and token claims |
| Accounts.AccountStore.UpdateProfile | backend/src/controllers/AuthController.ts:123-153 | 401 and 404 write nothing; otherwise only that user changes, to the merged profile |
| Accounts.AccountStore.ChangePassword | backend/src/controllers/AuthController.ts:156-184 | 401, 404 and a wrong old password write nothing; otherwise only that user's hash changes |
| Http.SignedIn | backend/src/controllers/AssessmentController.ts:14-17 | a request has a user exactly when `req.user?.userId` is present and not 0, the one falsy id the `!userId` guard also refuses |
| Http.UserIdOf | backend/src/middleware/auth.ts:7-9 | `req.user?.userId` is present exactly when a user is attached, and is that user's id |
| AuthGate.BearerToken | backend/src/middleware/auth.ts:14-15 | the token is the second space-separated word of the header, and there is none exactly when the header is missing or that word is missing or empty |
| AuthGate.TokenHasNoSpace | backend/src/middleware/auth.ts:15 | a token never contains a space |
| AuthGate.BearerRoundTrip | backend/src/middleware/auth.ts:15 | "scheme token", optionally followed by more words, yields the token |
| AuthGate.OneWordHeader | backend/src/middleware/auth.ts:15-18 | a header without a space carries no token |
| AuthGate.Authenticate | backend/src/middleware/auth.ts:13-28 | exactly one outcome: missing exactly without a token, invalid exactly when it does not verify, verified with the payload otherwise |
| AuthGate.AuthenticateToken | backend/src/middleware/auth.ts:13-28 | a missing token answers 401 and an invalid one 403, both without calling `next`; a verified one attaches the payload, calls `next` once and sends nothing |
| AuthGate.OptionalAuth | backend/src/middleware/auth.ts:30-44 | `next` is called exactly once and nothing is sent; only a verified token attaches its payload |
| Session.Lookup | frontend/src/stores/auth.ts:35-36 | `localStorage.getItem`: the stored string exactly when the key is stored |
| Session.Restored | frontend/src/stores/auth.ts:34-47 | restoring either keeps the storage or removes exactly the two session keys |
| Session.RestoreSaved | frontend/src/stores/auth.ts:38-45 | with both keys saved, the session becomes the saved token and parsed user, or is cleared when the user text does not parse |
| Session.RestoreNothing | frontend/src/stores/auth.ts:38 | without both keys saved and non-empty, restoring changes nothing |
| Session.RestoreIdempotent | frontend/src/stores/auth.ts:34-47 | restoring twice is restoring once |
| Session.AuthStore.UserGrade | frontend/src/stores/auth.ts:14 | `user?.grade` is absent without a user |
| Session.AuthStore.UserName | frontend/src/stores/auth.ts:15 | `user?.name` is absent without a user |
| Session.AuthStore.constructor | frontend/src/stores/auth.ts:8-10 | the store starts from the saved token, no user and `loading` false, then restores the session |
| Session.AuthStore.SetAuth | frontend/src/stores/auth.ts:18-23 | both refs and both storage keys are set, the user stored as its JSON text; the store is authenticated exactly for a non-empty token and a truthy user |
| Session.AuthStore.ClearAuth | frontend/src/stores/auth.ts:26-31 | both refs are nulled and exactly the two keys removed; the store is not authenticated |
| Session.AuthStore.RestoreAuth | frontend/src/stores/auth.ts:34-47 | the new session is what `Restored` describes |
| Session.AuthStore.Adopt | frontend/src/stores/auth.ts:39-45 | the saved token and parsed user are taken, or everything is cleared when parsing throws |
| Session.AuthStore.FetchProfile | frontend/src/stores/auth.ts:81-94 | nothing without a token; a profile replaces the user and its stored copy; a failure clears the session and is rethrown |
| Session.AuthStore.SignIn | frontend/src/stores/auth.ts:50-71 | `loading` goes up and back down on both paths; a reply sets the session as `setAuth` does and a failure changes nothing and is rethrown |
| Session.AuthStore.UpdateProfile | frontend/src/stores/auth.ts:97-107 | the store's invariant is kept; a reply replaces the user and its stored copy; the token never changes; `loading` goes up and back down |
| Session.AuthStore.ChangePassword | frontend/src/stores/auth.ts:110-118 | only `loading` moves, up and back down, and the store's invariant holds after; a failure is rethrown |
| Session.AuthStore.Logout | frontend/src/stores/auth.ts:74-78 | the session is cleared and the browser sent to "/auth/login" |
| Session.SavedSessionRestores | frontend/src/stores/auth.ts:18-47 | a session saved by `setAuth` comes back with the same user and token on the next page load |
| Session.StringifyNotEmpty | frontend/src/stores/auth.ts:22-38 | a stored user text is never empty, so it always counts as saved |
| Session.ClearTwice | frontend/src/stores/auth.ts:26-31 | clearing twice leaves what clearing once leaves |
| Router.JoinPath | frontend/src/router/index.ts:13-24 | a child's full path begins with its parent's path |
| Router.ChildEntries | frontend/src/router/index.ts:13-24 | one entry per child, in order, each with its parent's flag |
| Router.Flatten | frontend/src/router/index.ts:4-98 | every resolved route carries the flag of a top-level record and sits under that record's path |
| Router.SegmentEnd | frontend/src/router/index.ts:42 | a `:id` parameter takes characters up to the next '/', at least one |
| Router.MatchKeepsPrefix | frontend/src/router/index.ts:42-57 | a matching path begins with the literal beginning of its pattern |
| Router.LiteralMatchesItself | frontend/src/router/index.ts:31-95 | a pattern without parameters matches its own path |
| Router.Matches | frontend/src/router/index.ts:100-103 | a path matches a pattern when the literal characters agree and each `:param` takes one non-empty segment (Router.MatchKeepsPrefix, Router.LiteralMatchesItself) |
| Router.FirstMatch | frontend/src/router/index.ts:100-103 | the first route, in table order, whose pattern the path matches, or none exactly when no pattern matches |
| Router.Redirect | frontend/src/router/index.ts:5-8 | a path is kept or replaced by the redirect of a record with exactly that path |
| Router.RequiresAuth | frontend/src/router/index.ts:109 | `to.meta.requiresAuth` of the first matching route, false for a path that nothing matches |
| Router.Guard | frontend/src/router/index.ts:106-116 | the login redirect exactly when auth is required and no token is stored; otherwise the dashboard redirect exactly for an '/auth' path with a token; otherwise proceed |
| Router.Navigate | frontend/src/router/index.ts:106-116 | a navigation is the table's redirect followed by the guard on the resolved path and its meta (Router.NoRedirectLoop, Router.LoginIsFixedPoint) |
| Router.GuardReadsOnlyPresence | frontend/src/router/index.ts:107 | the guard looks only at whether a non-empty token is stored, not at its value |
| Router.RootChildrenClear | frontend/src/router/index.ts:30-96 | the main layout's children begin with two literal characters other than "au" |
| Router.PublicChildrenClear | frontend/src/router/index.ts:9-25 | the '/auth' children do not require auth |
| Router.FlattenThree | frontend/src/router/index.ts:4-98 | a three-record table resolves to the children of each record in order |
| Router.MainChildPaths | frontend/src/router/index.ts:31-95 | no main child path starts with "au" or a parameter |
| Router.TableClear | frontend/src/router/index.ts:4-98 | no route of the table that requires auth begins with "/au" |
| Router.TableFlags | frontend/src/router/index.ts:9-97 | the '/auth' children do not require auth and sit under '/auth'; every main child requires auth |
| Router.TableOrder | frontend/src/router/index.ts:4-98 | the table resolves to the '/auth' children, then the main children |
| Router.Inherited | frontend/src/router/index.ts:26-30 | a child inherits its parent's `meta.requiresAuth` and sits under its parent's path |
| Router.AuthPathsArePublic | frontend/src/router/index.ts:9-25 | no path under '/auth' requires auth, whatever route it matches |
| Router.ClearRoutesArePublic | frontend/src/router/index.ts:109-111 | over routes that do not begin with "/au" when protected, an '/auth' path matches no protected route |
| Router.LoginIsFixedPoint | frontend/src/router/index.ts:109-110 | without a token the login page is reached without a further redirect |
| Router.DashboardIsFixedPoint | frontend/src/router/index.ts:111-112 | with a token the dashboard is reached without a further redirect |
| Router.NoRedirectLoop | frontend/src/router/index.ts:106-116 | the target of a guard redirect is never redirected again |
| Router.FirstMatchSkips | frontend/src/router/index.ts:100-103 | routes none of which match are passed over |
| Router.AuthChildrenMiss | frontend/src/router/index.ts:13-24 | no '/auth' child matches a path whose second character is not 'a' |
| Router.SecondCharDecides | frontend/src/router/index.ts:31-95 | a pattern with two literal first characters fails a path whose second character differs |
| Router.FirstOfThird | frontend/src/router/index.ts:4-98 | a path outside '/auth' matching the third record's first child resolves to that child |
| Router.DashboardIsProtected | frontend/src/router/index.ts:31-35 | the dashboard requires auth: it is the first route its path matches |
| Validation.CustomAt | backend/src/middleware/validation.ts:20-25 | the first override listed for an error code is the one used |
| Validation.CustomNone | backend/src/middleware/validation.ts:46 | with no override for a code the lookup finds none |
| Validation.Message | backend/src/middleware/validation.ts:20-25 | a failure is reported with the key's override for its code if there is one, else with Joi's default English message |
| Validation.NumericText | backend/src/middleware/validation.ts:69 | text converts to a number only when it is not blank |
| Validation.NumberValue | backend/src/middleware/validation.ts:69 | a number is its own value; values other than numbers and strings do not convert |
| Validation.Coerce | backend/src/middleware/validation.ts:69-76 | a text key sees the value as given; a number key sees a convertible value as that number, anything else unchanged |
| Validation.RuleFailure | backend/src/middleware/validation.ts:19-82 | one rule on a value of its base type: alphanum, the lengths, the phone pattern, email, positive and the numeric bounds each fail with their own code; `integer` never fails; a rule of the other base type does not apply |
| Validation.FirstRuleFailure | backend/src/middleware/validation.ts:19-82 | no failure exactly when every rule passes; otherwise the failure of the first rule, in order, that fails |
| Validation.FieldFailure | backend/src/middleware/validation.ts:19-82 | an absent key fails exactly when required; a `valid` list accepts exactly its members; a text key passes exactly when it is a non-empty string passing every rule; a number key passes exactly when it converts and the number passes every rule |
| Validation.FieldError | backend/src/middleware/validation.ts:19-51 | a key is rejected exactly when it fails, with the message of its failure |
| Validation.FirstFieldError | backend/src/middleware/validation.ts:18-52 | no message exactly when every key passes; otherwise the message of the first key, in schema order, that fails |
| Validation.Keys | backend/src/middleware/validation.ts:18-52 | a name is a schema key exactly when some field of the schema has it |
| Validation.UnknownKey | backend/src/middleware/validation.ts:6 | none exactly when every body key is a schema key; otherwise the first body key that is not |
| Validation.Details | backend/src/middleware/validation.ts:6-9 | at most one error is reported, and a body that is not an object is reported as such |
| Validation.Accepted | backend/src/middleware/validation.ts:6-8 | a body is accepted exactly when it is an object, every key passes and it has no key outside the schema |
| Validation.FirstFailureReported | backend/src/middleware/validation.ts:6-9 | the first failing key decides the single message, whatever the keys after it hold |
| Validation.UnknownKeyReported | backend/src/middleware/validation.ts:6-9 | a body whose keys all pass is rejected for its first key outside the schema, as not allowed |
| Validation.Validate | backend/src/middleware/validation.ts:4-15 | a rejected body is answered 400 with the failure text and the details joined by ", ", and next is not called; an accepted body calls next once and sends nothing; nothing else changes |
| Validation.SingleDetail | backend/src/middleware/validation.ts:9 | joining a single detail gives that detail |
| Validation.NumericTextPadded | backend/src/middleware/validation.ts:69-76 | blanks around a number's text do not change its value |
| Validation.NumericTextOfDigits | backend/src/middleware/validation.ts:69-76 | the decimal digits of a natural number convert to that number |
| Validation.NumericTextOfNegative | backend/src/middleware/validation.ts:69-76 | a minus sign before digits converts to the negative number |
| Validation.NumericTextOfIntText | backend/src/middleware/validation.ts:69-76 | the decimal text of any integer, padded with blanks, converts back to that integer |
| Validation.UsernameRule | backend/src/middleware/validation.ts:19 | a username passes exactly when it is an alphanumeric string of 3 to 30 characters |
| Validation.RulesPass3 | backend/src/middleware/validation.ts:19 | three rules pass exactly when each of them passes |
| Validation.RulesPass2 | backend/src/middleware/validation.ts:36 | two rules pass exactly when each of them passes |
| Validation.EmailRule | backend/src/middleware/validation.ts:26 | an email passes exactly when it is a non-empty string the address check accepts |
| Validation.PasswordRule | backend/src/middleware/validation.ts:31 | a password passes exactly when it is a string of at least 6 characters |
| Validation.NameRule | backend/src/middleware/validation.ts:36 | a name passes exactly when it is a string of 2 to 50 characters |
| Validation.PhoneRule | backend/src/middleware/validation.ts:42 | a phone passes exactly when absent or a string of 11 digits starting 1 then 3-9 |
| Validation.SchoolRule | backend/src/middleware/validation.ts:46 | a school passes exactly when absent or a string of 1 to 100 characters |
| Validation.GradeRule | backend/src/middleware/validation.ts:47 | a grade passes exactly when it is one of the three listed grades |
| Validation.RegisterKeysAre | backend/src/middleware/validation.ts:18-52 | the registration schema has exactly the seven keys username, email, password, name, phone, school and grade |
| Validation.RegistrationAccepted | backend/src/middleware/validation.ts:18-52 | a registration body is accepted exactly when each of its keys meets its rule and it has no other key |
| Validation.RegistrationFieldsPass | backend/src/middleware/validation.ts:18-52 | a body meeting every registration rule passes every key of the schema |
| Validation.RegistrationFieldsValid | backend/src/middleware/validation.ts:18-52 | a body passing every key of the schema meets every registration rule |
| Validation.UsernameFailures | backend/src/middleware/validation.ts:19 | a username is reported missing, not a string, empty, not alphanumeric, too short or too long, in that order |
| Validation.UsernameMessages | backend/src/middleware/validation.ts:20-25 | the username's overrides replace the messages of its alphanumeric, length and required errors only |
| Validation.UsernameErrors | backend/src/middleware/validation.ts:19-25 | each username failure is reported with its own message, an override where the schema has one |
| Validation.EmailErrors | backend/src/middleware/validation.ts:26-30 | a missing email and an address the check refuses are reported with their overriding messages |
| Validation.PasswordErrors | backend/src/middleware/validation.ts:31-35 | a missing password and one shorter than 6 characters are reported with their overriding messages |
| Validation.NameFailures | backend/src/middleware/validation.ts:36 | a name is reported missing, too short at one character or too long past 50 |
| Validation.NameErrors | backend/src/middleware/validation.ts:36-41 | each name failure is reported with its overriding message |
| Validation.NameMessages | backend/src/middleware/validation.ts:37-41 | the name's overrides give the required, minimum and maximum messages |
| Validation.PhoneErrors | backend/src/middleware/validation.ts:42-45 | an absent phone passes, an empty one gets Joi's default empty message, a malformed one the overriding message |
| Validation.SchoolErrors | backend/src/middleware/validation.ts:46 | an absent school passes; a non-string and a school past 100 characters get Joi's default messages |
| Validation.GradeErrors | backend/src/middleware/validation.ts:47-51 | a missing grade and one outside the list are reported with their overriding messages |
| Validation.MissingUsernameReported | backend/src/middleware/validation.ts:19-25 | a registration body without a username is rejected with the username-required message alone |
| Validation.EmptyPhoneReported | backend/src/middleware/validation.ts:42-45 | a body whose earlier keys pass and whose phone is empty is rejected with the default empty-phone message |
| Validation.LoginAccepted | backend/src/middleware/validation.ts:55-65 | a login body is accepted exactly when the email passes, the password is a non-empty string and no other key is present |
| Validation.LoginErrors | backend/src/middleware/validation.ts:55-65 | a missing email, and then a missing password, are reported with their overriding messages |
| Validation.NumberFieldFailure | backend/src/middleware/validation.ts:69-76 | a number key whose value does not convert fails as not a number; one that converts fails as its rules on the number do |
| Validation.ChapterRulesAt | backend/src/middleware/validation.ts:69 | a chapter number fails exactly when it is not positive |
| Validation.CountRulesAt | backend/src/middleware/validation.ts:76 | a question count fails below 5 or above 20 and passes in between |
| Validation.ChapterRule | backend/src/middleware/validation.ts:69 | a chapter id passes exactly when present and converting to a positive number |
| Validation.CountRule | backend/src/middleware/validation.ts:76 | a question count passes exactly when absent or converting to a number from 5 to 20 |
| Validation.StartAccepted | backend/src/middleware/validation.ts:68-83 | a start-assessment body is accepted exactly when the chapter id and the question count pass and no other key is present |
| Validation.ChapterErrors | backend/src/middleware/validation.ts:69-75 | a missing, non-numeric or non-positive chapter id is reported with its overriding message |
| Validation.ChapterMessages | backend/src/middleware/validation.ts:70-75 | the chapter id's overrides give the required, not-a-number and not-positive messages |
| Validation.CountErrors | backend/src/middleware/validation.ts:76-82 | an absent count passes; a non-numeric, too small or too large count is reported with its overriding message |
| Validation.CountMessages | backend/src/middleware/validation.ts:77-82 | the question count's overrides give the not-a-number, minimum and maximum messages |
| Validation.NumericChapterAccepted | backend/src/middleware/validation.ts:69 | a chapter id sent as the text of a positive integer, padded with blanks, passes |

## Left out

- HTTP transport is left out as I/O: the axios clients of `DeepSeekService` and `KimiService`, their timeouts, `getApiStatus` and the prompt texts. The reply content and the parse of it are inputs.
- `KimiService` is represented only by the outcome it hands to the controllers, a generated batch or an error.
- No retry loop over generation and audit is modelled. The supervised generation that the debug controller calls is not defined in the source, and `backend/src/controllers/DebugController.ts` is not part of this model.
- Sequelize is left out: `include`s (except the active-topic filter of the chapter lookup, which acts as an inner join), `LIKE` queries and `findAndCountAll`. Tables are in-memory sequences, and ordering by creation time is modelled as store order, newest first where the controllers sort that way.
- Failures of database writes and the generic 500 `catch` blocks that answer them are left out, because the in-memory writes cannot fail.
- Concurrency under `Promise.all` is modelled as a sequential run in index order. The practice dedup rule therefore compares each generated question with the questions stored before the batch, so duplicates within one batch are not caught.
- The `AssessmentQuestion` model lacks some of the columns the controller writes (`order_index`, `solution`, `difficulty`, `knowledge_points`). The model follows the controller: the questions keep those fields.
- Assessments.NewAssessment: describes the record the controller asks for, open with a null completion time. `Assessment` puts `@CreatedAt` on `completed_at`, so the stored record has the insert time as its completion time instead (Assessments.NewAssessmentAsWritten, under Findings).
- Assessments.AssessmentStore.StartAssessment: stores the intended open record. As written, the new record is closed at once: it shows in the history with score 0, and that score, below 70, makes its chapter a weak one for the next plan.
- Assessments.AssessmentStore.SubmitAnswer: grades answers to an open assessment. As written, no assessment is ever open, so every answer is refused 400 '测评已完成，无法修改答案' (Assessments.StartedAsWrittenIsClosed).
- Assessments.AssessmentStore.CompleteAssessment: grades an open assessment. As written, every completion is refused 400 '测评已完成' (Assessments.StartedAsWrittenIsClosed).
- Floating point and `toFixed` formatting are left out. Rates and means are exact rationals, and `Math.round((correctAnswers / totalQuestions) * 100)` (backend/src/controllers/AssessmentController.ts:213) is computed as `(200c+t) div 2t`, the exact nearest integer with halves rounded up as `Math.round` does. With 200 or more questions, a score of 100 no longer implies that every answer is correct (lemma `Assessments.FullScoreWithOneWrong`). Validation caps only the requested `question_count` at 20; the number of questions stored for an assessment is not bounded.
- Assessments.Score: rounds the exact quotient. The source rounds the quotient and the product in doubles first, so from 40 stored questions on it can round down where the model rounds up: 23 of 40 gives 57 in the source and 58 in the model, and 29 of 200 gives 14 and 15. The model's score is never the lower one.
- MySQL's case-insensitive collation is left out: `Accounts.IndexOfEmail` and `Accounts.FindConflict` compare emails and usernames exactly, where the database would match them ignoring case.
- The 400 refusal for a chapter without active topics in `startAssessment` is kept as written, but it cannot be reached: the topic include filters on `is_active`, so it is an inner join, and a chapter without an active topic is answered 404 (lemmas `Assessments.NoTopicsUnreachable` and `Assessments.ChapterWithoutTopicsNotFound`).
- Practice.Fresh: keeps a generated question unless Practice.Duplicate finds it, so it inherits the prefix difference on the next line.
- Practice.Duplicate: takes the first 20 characters of a generated text as 20 Unicode code points. The source's `substring(0, 20)` takes 20 UTF-16 code units, so a text with a character outside the Basic Multilingual Plane among its first 20 is probed with a shorter prefix in the source than in the model. Strings in the model are sequences of code points throughout, so no string measure of the model counts UTF-16 code units.
- `toLowerCase` is modelled on ASCII letters only. `trim` uses JavaScript's whitespace set.
- JSON numbers are integers. Fractions and exponents, and escapes of lone surrogates, are not produced by the model's `JSON.stringify` and are refused by its parser.
- Assessments.History: requires `page` and `pageSize` to be at least 1, so two paths of the source are not modelled. A page below 1, a negative page size or a non-numeric value gives a negative or NaN offset (`Paging.Offset` is negative for a page below 1), which the database rejects, and the catch answers 500. A page size of 0 is accepted: the source sends `LIMIT 0` and answers 200 with no rows, the true total, and a page count of `Math.ceil(total / 0)`, which is Infinity (NaN for a total of 0) and is sent as `null` in JSON.
- Practice.Mistakes: requires a page and page size of at least 1, so the same two paths are not modelled: the rejected offset, and a page size of 0 answered 200 with no rows and a `null` page count.
- Practice.PracticeStore.GetPracticeQuestions: requires a page and page size of at least 1, so the same two paths are not modelled: the rejected offset, and a page size of 0 answered 200 with no rows and a `null` page count.
- Learning.LearningProgress: sends the numeric mean of the recent scores, the corrected average (under Findings). As written, the scores arrive as text and the `reduce` concatenates them, so the average is the score itself for one row and NaN, sent as `"NaN"`, for two or more (Learning.AverageAsWritten, Learning.ProgressAverageAsWritten).
- Learning.AverageIsPercentage: holds of the corrected mean only. Of the average as written it holds for at most one row; from two rows on that average is NaN, which is no percentage.
- Learning.LearningStore.GenerateLearningPlan: takes `focus_chapters` as an optional list of names. The body is not validated, so a truthy value that is not an array, such as a string, passes `focus_chapters || …` (backend/src/controllers/LearningController.ts:54) and reaches `.map` (line 86), which throws after `LearningPlan.create` (lines 75-83) has stored the plan; the catch answers 500 and the plan stays without tasks. That path is not modelled.
- Learning.LearningStore.UpdateTaskStatus: takes `task_id` and `status` as present values. A missing `task_id` gives `where: { id: undefined }`, which Sequelize refuses, and the catch answers 500. A missing `status` is dropped by the instance `update`, so the reply is 200 with nothing changed. Neither path is modelled.
- Accounts.ChangedPasswordLogsIn: its refusal of a different old password relies on the ideal hash being injective. bcryptjs reads only the first 72 bytes of a password's UTF-8 encoding, and no maximum password length is enforced, so a different password that shares its first 72 bytes with the stored one passes the source's check.
- Accounts.AccountStore.ChangePassword: takes both passwords as strings, because `/change-password` has no validation middleware (backend/src/routes/auth.ts:21). Two bodies are not modelled: a missing or non-string `oldPassword` makes `bcrypt.compare` reject, and the catch answers 500 '修改密码失败'; a missing `newPassword` is dropped by the instance `update`, so the reply is 200 '密码修改成功' with the hash unchanged.
- `getLearningPlans`, `getLearningPlan`, `generateProgressAnalysis` and the read-only listing endpoints are left out. They are lookups and generator wiring with no decision of their own.
- The timestamps `created_at` and `updated_at` that `User.toJSON` carries are left out: the model has no clock for rows.
- Joi is modelled only as far as these schemas use it:
  - keys are checked in schema order;
  - the first error alone is reported (`abortEarly`);
  - unknown keys are reported only once every schema key passes;
  - the default English messages are those of each code;
  - a string converts to a number only when it is an optional sign followed by digits, with surrounding blanks;
  - lengths count Unicode code points, where JavaScript counts UTF-16 code units;
  - email-address checking is a function parameter;
  - the `integer` rule always passes, because model numbers are integers;
  - `number.unsafe`, the refusal of numbers beyond ±(2^53−1), is not modelled, because model numbers are unbounded integers;
  - the default message of `pattern` is rendered only for the phone regular expression.
- Session.AuthStore.SignIn: promises the store's invariant only on a successful reply, because it does not require the invariant beforehand. A failed call leaves `user`, `token` and the storage as they were.
- The `loading` flag's history is a ghost trace, because it exists only to show that `loading` is raised and then always lowered.
- `logout` assigns `window.location.href`. The model returns the target path instead. ElMessage pop-ups are left out.
- Vue reactivity is modelled as plain fields. Lazy component imports are left out.
- Vue Router's own matching details are left out: case-insensitivity, trailing slashes and ranking. Route resolution is the first match in table order, and a `:param` matches one non-empty segment.
- The guard's `startsWith('/auth')` is kept as written, so a path such as `/authx` also counts as an auth path.
- `setTimeout` pauses are counted, not timed.

## Findings

| source | as written | input that shows it | evidently intended | confidence | as-written member | corrected member |
|---|---|---|---|---|---|---|
| backend/src/controllers/PracticeController.ts:203 | `submitPracticeAnswer` is a static handler that calls `this.updateQuestionStats`, and `backend/src/routes/practice.ts:14` passes it to Express unbound, so `this` is undefined, the call throws after the record is written, and the catch answers 500 | any signed-in submission with an answer to an existing question, e.g. user 7 answering "2" to question 1 whose answer is "2" | the question's usage count and correct rate are refreshed and the reply reports the verdict and the attempt count | not executed | Practice.PracticeStore.SubmitPracticeAnswer, exhibited by Practice.RoutedAnswerFails | Practice.PracticeStore.SubmitPracticeAnswerBound |
| backend/src/controllers/LearningController.ts:341-343 | `score` is a `DECIMAL(5,2)` column (backend/src/models/Assessment.ts:54-56) and the connection does not ask for decimals as numbers, so scores arrive as text such as `"80.00"` and `reduce((sum, a) => sum + a.score, 0)` concatenates them: one row gives `"080.00"`, which divides back to 80, and two or more give a text with two decimal points, which divides to NaN and is sent as `"NaN"` | a user with an active plan and two completed assessments scoring 80 and 70 | the mean of the recent scores, here 75 | not executed | Learning.AverageAsWritten, exhibited by Learning.TwoScoresAverage and Learning.ProgressAverageAsWritten | Learning.LearningProgress, whose average is Rates.Mean |
| backend/src/models/Assessment.ts:67-68 | `completed_at` is the class's `@CreatedAt` timestamp under `timestamps: true` (lines 15-19), and Sequelize fills a creation timestamp that is null at insert, so `Assessment.create({ …, completed_at: null })` (backend/src/controllers/AssessmentController.ts:43-51) stores the insert time: every answer is then refused 400 (lines 135-137), every completion 400 (lines 205-207), and the ungraded record is listed in the history with score 0 | start an assessment, then submit an answer to one of its questions | a new assessment stays open until `completeAssessment` grades it | not executed | Assessments.NewAssessmentAsWritten, exhibited by Assessments.StartedAsWrittenIsClosed | Assessments.NewAssessment |
