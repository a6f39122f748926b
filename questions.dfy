/**
 * A question as the question generator returns it, shared by the audit
 * service, assessments and practice, and the JSON text its option list is
 * stored as. The enumerations are the value domains the data model declares
 * for question type and difficulty.
 */
module Questions {
  import opened Wrappers
  import opened Json

  /** `'单选' | '多选' | '填空' | '解答'`: single choice, multiple choice, fill in the blank, worked answer. */
  datatype QuestionType = SingleChoice | MultipleChoice | FillBlank | WorkedAnswer

  /** `'基础' | '中等' | '困难'`. */
  datatype Difficulty = Basic | Medium | Hard

  datatype GeneratedQuestion = GeneratedQuestion(
    questionText: string,
    questionType: QuestionType,
    difficulty: Difficulty,
    options: Option<seq<string>>,
    correctAnswer: string,
    solution: string,
    knowledgePoints: seq<string>)

  function Strings(ss: seq<string>): (r: seq<Value>)
    ensures |r| == |ss| && forall k :: 0 <= k < |ss| ==> r[k] == JStr(ss[k])
  {
    seq(|ss|, k requires 0 <= k < |ss| => JStr(ss[k]))
  }

  /** `q.options ? JSON.stringify(q.options) : null`: an array, even an empty one, is serialised. */
  function OptionsText(o: Option<seq<string>>): (r: Option<string>)
    ensures r.Some? <==> o.Some?
  {
    if o.Some? then Some(Stringify(JArr(Strings(o.value)))) else None
  }

  /** The option list the client should see: the generated options as a JSON array. */
  function OptionsValue(o: Option<seq<string>>): Option<Value> {
    if o.Some? then Some(JArr(Strings(o.value))) else None
  }

  /**
   * `q.options ? JSON.parse(q.options) : null` on stored text. Text the
   * parser refuses also gives `None`: there `JSON.parse` throws and the
   * handler's catch answers 500.
   */
  function ParsedOptions(o: Option<string>): Option<Value> {
    if o.Some? && o.value != "" then Parse(o.value) else None
  }

  /** Stored options read back as the options that were generated. */
  lemma OptionsRoundTrip(o: Option<seq<string>>)
    ensures ParsedOptions(OptionsText(o)) == OptionsValue(o)
  {
    if o.Some? {
      var v := JArr(Strings(o.value));
      StringifyStart(v);
      ParseStringify(v);
    }
  }
}
