/**
 * The checkable half of the generate-then-audit flow: the chat-completion
 * reply is taken apart, code fences are stripped from its content, the
 * parsed object is normalised into an audit verdict with a default for every
 * field, a parse failure turns into a rejection verdict, and a batch audits
 * questions one at a time. The HTTP call and `JSON.parse` are inputs: the
 * call's outcome is a `Result`, and `parse` maps the cleaned text to a value
 * or to the text of the error it throws.
 */
module AuditService {
  import opened Wrappers
  import opened Text
  import opened Json
  import opened Questions
  import Seqs

  // ---------------------------------------------------------------------------
  // The reply of the chat-completion endpoint

  /** `choices[0].message`; an absent field is `None`. */
  datatype Message = Message(content: Option<string>, reasoningContent: Option<string>)

  datatype Choice = Choice(message: Option<Message>)

  /** `response.data`. */
  datatype Reply = Reply(choices: Option<seq<Choice>>)

  /** The `AuditResult` handed back to callers. */
  datatype Verdict = Verdict(
    isValid: Value,
    score: Value,
    issues: seq<Value>,
    suggestions: seq<Value>,
    correctedSolution: Option<Value>,
    auditSummary: Value,
    reasoningProcess: Option<string>)

  const AuditPrefix := "DeepSeek审核失败: "
  const ReasoningPrefix := "DeepSeek深度推理审核失败: "
  const FormatError := "DeepSeek API响应格式异常: 缺少choices或message字段"
  const EmptyError := "DeepSeek返回内容为空"
  const DefaultSummary := "审核完成"
  const ReasoningDefaultSummary := "深度推理审核完成"
  const ParseIssue := "AI审核响应格式解析失败"
  const ParseSuggestion := "请检查题目格式并重新生成"
  const ParseSummaryPrefix := "审核失败："
  const ReasoningParseIssue := "深度推理审核响应解析失败"
  const ReasoningParseSuggestion := "请重新进行审核"
  const ReasoningParseSummaryPrefix := "深度推理审核失败："
  const BatchIssuePrefix := "审核失败: "
  const BatchSuggestion := "请重新生成题目"
  const BatchSummary := "审核过程出现错误"

  /** The message of the `TypeError` thrown by reading `prop` of `undefined`. */
  function UndefinedRead(prop: string): string {
    "Cannot read properties of undefined (reading '" + prop + "')"
  }

  /** What `${parseError}` prints when the parsed reply is `null` and `.isValid` is read from it. */
  const NullReadError := "TypeError: Cannot read properties of null (reading 'isValid')"

  // ---------------------------------------------------------------------------
  // Fence cleaning

  const Fence := "```"
  const FenceJson := "```json"

  /**
   * `s.replace(/<pat>\s*\/g, '')`: scanning from the left, every occurrence
   * of `pat` is deleted together with the whitespace run after it.
   */
  function Strip(s: string, pat: string): (r: string)
    requires pat != []
    ensures |r| <= |s|
    decreases |s|
  {
    if s == [] then []
    else if StartsWith(s, pat) then Strip(TrimStart(s[|pat|..]), pat)
    else [s[0]] + Strip(s[1..], pat)
  }

  /** The text handed to `JSON.parse`. */
  function Clean(content: string): (r: string)
    ensures IsTrimmed(r) && |r| <= |content|
  {
    Trim(Strip(Strip(content, FenceJson), Fence))
  }

  predicate NoBacktick(s: string) {
    forall i | 0 <= i < |s| :: s[i] != '`'
  }

  /** No position of `s` starts a "```". */
  predicate NoFence(s: string) {
    forall i :: 0 <= i <= |s| ==> !StartsWith(s[i..], Fence)
  }

  /** Text without the first character of `pat` passes through unchanged. */
  lemma {:induction false} StripPlain(s: string, t: string, pat: string)
    requires pat != [] && pat[0] == '`' && NoBacktick(s)
    ensures Strip(s + t, pat) == s + Strip(t, pat)
    decreases |s|
  {
    if s == [] {
      Seqs.EmptyUnit(t);
    } else {
      var x := s + t;
      assert x[0] == s[0];
      assert x[1..] == s[1..] + t;
      StartsWithHead(x, pat);
      StripPlain(s[1..], t, pat);
      Seqs.ConsSplit(s, Strip(t, pat));
    }
  }

  /** Text shorter than `pat` cannot hold it. */
  lemma {:induction false} StripShort(s: string, pat: string)
    requires pat != [] && |s| < |pat|
    ensures Strip(s, pat) == s
    decreases |s|
  {
    if s != [] {
      StripShort(s[1..], pat);
      assert [s[0]] + s[1..] == s;
    }
  }

  /** Text in which `pat` occurs nowhere passes through unchanged. */
  lemma {:induction false} StripAbsent(s: string, pat: string)
    requires pat != []
    requires forall i :: 0 <= i <= |s| ==> !StartsWith(s[i..], pat)
    ensures Strip(s, pat) == s
    decreases |s|
  {
    if s != [] {
      assert !StartsWith(s[0..], pat);
      assert s[0..] == s;
      var t := s[1..];
      forall i | 0 <= i <= |t|
        ensures !StartsWith(t[i..], pat)
      {
        assert t[i..] == s[i + 1..];
      }
      StripAbsent(t, pat);
      assert [s[0]] + t == s;
    }
  }

  /** A first character that cannot start `pat` is kept. */
  lemma StripKeepsFirst(t: string, pat: string)
    requires pat != [] && t != [] && t[0] != pat[0]
    ensures Strip(t, pat) == [t[0]] + Strip(t[1..], pat)
  {
    StartsWithHead(t, pat);
  }

  lemma StartsWithHead(x: string, pat: string)
    requires pat != []
    ensures StartsWith(x, pat) ==> x != [] && x[0] == pat[0]
  {
    if StartsWith(x, pat) {
      assert x[..|pat|][0] == pat[0];
    }
  }

  lemma ThreeTicks(u: string)
    ensures |u| >= 3 && u[0] == '`' && u[1] == '`' && u[2] == '`' ==> StartsWith(u, Fence)
  {
    if |u| >= 3 && u[0] == '`' && u[1] == '`' && u[2] == '`' {
      assert u[..3] == Fence;
    }
  }

  /** A "```" inside a slice is a "```" of the whole. */
  lemma FenceInInfix(x: string, k: nat, c: string, i: nat)
    requires k + |c| <= |x| && c == x[k..k + |c|] && i <= |c|
    ensures StartsWith(c[i..], Fence) ==> StartsWith(x[k + i..], Fence)
  {
    if StartsWith(c[i..], Fence) {
      assert forall j :: 0 <= j < 3 ==> x[k + i..][j] == c[i..][j];
      assert x[k + i..][..3] == c[i..][..3];
    }
  }

  lemma OccursStarts(c: string, pat: string, i: int)
    ensures OccursAt(c, pat, i) ==> StartsWith(c[i..], pat)
  {
    if OccursAt(c, pat, i) {
      assert c[i..][..|pat|] == c[i..i + |pat|];
    }
  }

  lemma FenceJsonStartsFence(x: string)
    ensures StartsWith(x, FenceJson) ==> StartsWith(x, Fence)
  {
    if StartsWith(x, FenceJson) {
      assert x[..3] == x[..7][..3];
    }
  }

  /** Removing every "```" cannot join pieces into a new one. */
  lemma {:induction false} StripLeavesNoFence(u: string)
    ensures NoFence(Strip(u, Fence))
    decreases |u|
  {
    if u == [] {
      assert Strip(u, Fence) == [];
      forall i | 0 <= i <= 0 ensures !StartsWith(""[i..], Fence) {
      }
    } else if StartsWith(u, Fence) {
      StripLeavesNoFence(TrimStart(u[|Fence|..]));
    } else {
      var w := u[1..];
      var tail := Strip(w, Fence);
      var out := [u[0]] + tail;
      assert Strip(u, Fence) == out;
      StripLeavesNoFence(w);
      assert !StartsWith(out, Fence) by {
        FirstTwoNotFence(u);
      }
      forall i | 0 <= i <= |out|
        ensures !StartsWith(out[i..], Fence)
      {
        if i > 0 {
          assert out[i..] == tail[i - 1..];
        }
      }
    }
  }

  /** The head of the output when the input's head is kept. */
  lemma FirstTwoNotFence(u: string)
    requires u != [] && !StartsWith(u, Fence)
    ensures !StartsWith([u[0]] + Strip(u[1..], Fence), Fence)
  {
    var w := u[1..];
    var out := [u[0]] + Strip(w, Fence);
    if u[0] == '`' && w != [] {
      if w[0] != '`' {
        StripKeepsFirst(w, Fence);
        assert out[1] == w[0];
      } else {
        assert |w| == 1 || w[1] != '`' by {
          ThreeTicks(u);
        }
        assert !StartsWith(w, Fence);
        assert Strip(w, Fence) == [w[0]] + Strip(w[1..], Fence);
        if |w| == 1 {
          assert Strip(w[1..], Fence) == [];
          assert |out| == 2;
        } else {
          StripKeepsFirst(w[1..], Fence);
          assert out[2] == w[1];
        }
      }
    } else if u[0] == '`' {
      assert Strip(w, Fence) == [];
      assert |out| == 1;
    } else {
      assert out[0] != Fence[0];
    }
  }

  /** A cleaned reply holds no "```" at all. */
  lemma CleanNoFence(content: string)
    ensures NoFence(Clean(content))
    ensures !Contains(Clean(content), Fence)
  {
    var x := Strip(Strip(content, FenceJson), Fence);
    StripLeavesNoFence(Strip(content, FenceJson));
    var c := Clean(content);
    var k := TrimIsInfix(x);
    forall i | 0 <= i <= |c|
      ensures !StartsWith(c[i..], Fence)
    {
      FenceInInfix(x, k, c, i);
    }
    forall i | 0 <= i <= |c| - |Fence|
      ensures !OccursAt(c, Fence, i)
    {
      OccursStarts(c, Fence, i);
    }
  }

  /** Text without any backtick is only trimmed. */
  lemma CleanWithoutBackticks(content: string)
    requires NoBacktick(content)
    ensures Clean(content) == Trim(content)
  {
    StripPlain(content, "", FenceJson);
    StripPlain(content, "", Fence);
    assert content + "" == content;
  }

  /** Cleaning twice is cleaning once. */
  lemma CleanIdempotent(content: string)
    ensures Clean(Clean(content)) == Clean(content)
  {
    var c := Clean(content);
    CleanNoFence(content);
    forall i | 0 <= i <= |c|
      ensures !StartsWith(c[i..], FenceJson)
    {
      FenceJsonStartsFence(c[i..]);
    }
    StripAbsent(c, FenceJson);
    StripAbsent(c, Fence);
    TrimTrimmed(c);
  }

  /** A reply wrapped as "```json\n…\n```" around a backtick-free body cleans to the trimmed body. */
  lemma CleanFencedBlock(body: string)
    requires NoBacktick(body)
    ensures Clean(FenceJson + "\n" + body + "\n" + Fence) == Trim(body)
  {
    FencedOpening(body);
    if LeadingEnd(body, 0) < |body| {
      FencedBodyText(body);
    } else {
      FencedBlankText(body);
    }
  }

  /** The opening "```json" goes together with the whitespace after it. */
  lemma FencedOpening(body: string)
    ensures Strip(FenceJson + "\n" + body + "\n" + Fence, FenceJson)
         == Strip(TrimStart("\n" + body + "\n" + Fence), FenceJson)
  {
    var rest := "\n" + body + "\n" + Fence;
    var s := FenceJson + "\n" + body + "\n" + Fence;
    assert s == FenceJson + rest;
    assert StartsWith(s, FenceJson) && s[|FenceJson|..] == rest;
  }

  /** The body part of `CleanFencedBlock` when the body holds more than whitespace. */
  lemma FencedBodyText(body: string)
    requires NoBacktick(body) && LeadingEnd(body, 0) < |body|
    ensures Trim(Strip(Strip(TrimStart("\n" + body + "\n" + Fence), FenceJson), Fence)) == Trim(body)
  {
    var a := LeadingEnd(body, 0);
    var rest := "\n" + body + "\n" + Fence;
    var line := body[a..] + "\n";
    BodyStart(body, a);
    LineStrips(body, a);
    LineTrim(body, a);
    CleanSteps(rest, line, body);
  }

  lemma CleanSteps(rest: string, line: string, body: string)
    requires TrimStart(rest) == line + Fence
    requires Strip(Strip(line + Fence, FenceJson), Fence) == line
    requires Trim(line) == Trim(body)
    ensures Trim(Strip(Strip(TrimStart(rest), FenceJson), Fence)) == Trim(body)
  {
  }

  lemma BodyStart(body: string, a: nat)
    requires a == LeadingEnd(body, 0) < |body|
    ensures TrimStart("\n" + body + "\n" + Fence) == body[a..] + "\n" + Fence
  {
    Seqs.RegroupAt("\n", body, "\n", Fence, a);
    NewlineIsSpace();
    AllSpaceJoin("\n", body[..a]);
    TrimStartOf("\n" + body[..a], body[a..] + "\n" + Fence);
  }

  lemma LineStrips(body: string, a: nat)
    requires NoBacktick(body) && a <= |body|
    ensures Strip(Strip(body[a..] + "\n" + Fence, FenceJson), Fence) == body[a..] + "\n"
  {
    var line := body[a..] + "\n";
    assert NoBacktick(line);
    StripPlain(line, Fence, FenceJson);
    StripShort(Fence, FenceJson);
    StripPlain(line, Fence, Fence);
    FenceAlone();
    Seqs.EmptyUnit(line);
  }

  lemma LineTrim(body: string, a: nat)
    requires a == LeadingEnd(body, 0)
    ensures Trim(body[a..] + "\n") == Trim(body)
  {
    NewlineTrim(body[a..]);
    LeadingTrim(body, a);
  }

  lemma NewlineTrim(b: string)
    ensures Trim(b + "\n") == Trim(b)
  {
    NewlineIsSpace();
    TrimPadded("", b, "\n");
    Seqs.EmptyUnit(b);
  }

  lemma LeadingTrim(body: string, a: nat)
    requires a == LeadingEnd(body, 0)
    ensures Trim(body[a..]) == Trim(body)
  {
    assert AllSpace(body[..a]);
    TrimPadded(body[..a], body[a..], "");
    Seqs.TakeDrop(body, a);
  }

  /** The body part of `CleanFencedBlock` when the body is blank. */
  lemma FencedBlankText(body: string)
    requires LeadingEnd(body, 0) == |body|
    ensures Trim(Strip(Strip(TrimStart("\n" + body + "\n" + Fence), FenceJson), Fence)) == Trim(body)
  {
    assert TrimStart("\n" + body + "\n" + Fence) == Fence by {
      Seqs.Regroup4("\n", body, "\n", Fence);
      NewlineIsSpace();
      assert AllSpace(body);
      AllSpaceJoin("\n", body);
      AllSpaceJoin("\n" + body, "\n");
      PrintableIsNotSpace('`');
      TrimStartOf("\n" + body + "\n", Fence);
    }
    StripShort(Fence, FenceJson);
    FenceAlone();
    TrimAt(body);
  }

  lemma FenceAlone()
    ensures Strip(Fence, Fence) == ""
  {
    assert StartsWith(Fence, Fence) && Fence[|Fence|..] == "";
  }

  // ---------------------------------------------------------------------------
  // Verdict normalisation

  /** `parsed[key]` is present and truthy. */
  predicate Supplied(parsed: Value, key: string) {
    Get(parsed, key).Some? && Truthy(Get(parsed, key).value)
  }

  /** `Array.isArray(parsed[key]) ? parsed[key] : []`. */
  function ArrayField(parsed: Value, key: string): (r: seq<Value>)
    ensures (Get(parsed, key).Some? && Get(parsed, key).value.JArr?) ==> r == Get(parsed, key).value.items
    ensures !(Get(parsed, key).Some? && Get(parsed, key).value.JArr?) ==> r == []
  {
    match Get(parsed, key)
    case Some(JArr(items)) => items
    case _ => []
  }

  /** `s || undefined` for an optional string. */
  function NonEmpty(s: Option<string>): (r: Option<string>)
    ensures r.Some? <==> s.Some? && s.value != ""
    ensures r.Some? ==> r == s
  {
    if s.Some? && s.value != "" then s else None
  }

  /** The shape every verdict built from a parsed reply has: each field is either supplied or its default. */
  predicate FieldsNormal(v: Verdict) {
    && (Truthy(v.isValid) || v.isValid == JBool(false))
    && (Truthy(v.score) || v.score == JNum(0))
    && (v.correctedSolution.Some? ==> Truthy(v.correctedSolution.value))
    && Truthy(v.auditSummary)
  }

  predicate IsNormal(v: Verdict) {
    FieldsNormal(v) && (v.reasoningProcess.Some? ==> v.reasoningProcess.value != "")
  }

  /** The object literal that turns a parsed reply into a verdict. */
  function Normalise(parsed: Value, defaultSummary: string, reasoning: Option<string>): (r: Verdict)
    ensures Supplied(parsed, "isValid") ==> r.isValid == Get(parsed, "isValid").value
    ensures !Supplied(parsed, "isValid") ==> r.isValid == JBool(false)
    ensures Supplied(parsed, "score") ==> r.score == Get(parsed, "score").value
    ensures !Supplied(parsed, "score") ==> r.score == JNum(0)
    ensures r.issues == ArrayField(parsed, "issues") && r.suggestions == ArrayField(parsed, "suggestions")
    ensures r.correctedSolution.Some? <==> Supplied(parsed, "correctedSolution")
    ensures r.correctedSolution.Some? ==> r.correctedSolution.value == Get(parsed, "correctedSolution").value
    ensures Supplied(parsed, "auditSummary") ==> r.auditSummary == Get(parsed, "auditSummary").value
    ensures !Supplied(parsed, "auditSummary") ==> r.auditSummary == JStr(defaultSummary)
    ensures r.reasoningProcess == NonEmpty(reasoning)
    ensures defaultSummary != "" ==> IsNormal(r)
  {
    Verdict(
      isValid := Or(Get(parsed, "isValid"), JBool(false)),
      score := Or(Get(parsed, "score"), JNum(0)),
      issues := ArrayField(parsed, "issues"),
      suggestions := ArrayField(parsed, "suggestions"),
      correctedSolution := if Supplied(parsed, "correctedSolution") then Get(parsed, "correctedSolution") else None,
      auditSummary := Or(Get(parsed, "auditSummary"), JStr(defaultSummary)),
      reasoningProcess := NonEmpty(reasoning))
  }

  /** A verdict written back as the object the model is asked to return. */
  function VerdictObject(v: Verdict): (r: Value)
    ensures r.JObj?
  {
    JObj([("isValid", v.isValid), ("score", v.score), ("issues", JArr(v.issues)),
          ("suggestions", JArr(v.suggestions)), ("auditSummary", v.auditSummary)]
         + (if v.correctedSolution.Some? then [("correctedSolution", v.correctedSolution.value)] else []))
  }

  /** Normalisation is idempotent: a normalised verdict read back as a reply normalises to itself. */
  lemma NormaliseFixpoint(v: Verdict, defaultSummary: string)
    requires IsNormal(v)
    ensures Normalise(VerdictObject(v), defaultSummary, v.reasoningProcess) == v
  {
    var o := VerdictObject(v);
    VerdictObjectFields(v);
    if v.correctedSolution.None? {
      assert Get(o, "correctedSolution").None?;
    }
  }

  /** What each key of a verdict's object yields. */
  lemma VerdictObjectFields(v: Verdict)
    ensures var o := VerdictObject(v);
      Get(o, "isValid") == Some(v.isValid) && Get(o, "score") == Some(v.score) &&
      Get(o, "issues") == Some(JArr(v.issues)) && Get(o, "suggestions") == Some(JArr(v.suggestions)) &&
      Get(o, "auditSummary") == Some(v.auditSummary) &&
      (v.correctedSolution.Some? ==> Get(o, "correctedSolution") == v.correctedSolution) &&
      (v.correctedSolution.None? ==> Get(o, "correctedSolution").None?)
  {
    VerdictField(v, 0, "isValid");
    VerdictField(v, 1, "score");
    VerdictField(v, 2, "issues");
    VerdictField(v, 3, "suggestions");
    VerdictField(v, 4, "auditSummary");
    if v.correctedSolution.Some? {
      VerdictField(v, 5, "correctedSolution");
    }
  }

  lemma VerdictField(v: Verdict, i: nat, key: string)
    requires i < |VerdictObject(v).fields| && VerdictObject(v).fields[i].0 == key
    requires key in {"isValid", "score", "issues", "suggestions", "auditSummary", "correctedSolution"}
    ensures Get(VerdictObject(v), key) == Some(VerdictObject(v).fields[i].1)
  {
    VerdictKeys(v);
    GetByLength(VerdictObject(v).fields, i, key);
  }

  lemma VerdictKeys(v: Verdict)
    ensures var fs := VerdictObject(v).fields;
      |fs| == (if v.correctedSolution.Some? then 6 else 5) &&
      fs[0] == ("isValid", v.isValid) && fs[1] == ("score", v.score) && fs[2] == ("issues", JArr(v.issues)) &&
      fs[3] == ("suggestions", JArr(v.suggestions)) && fs[4] == ("auditSummary", v.auditSummary) &&
      (v.correctedSolution.Some? ==> fs[5] == ("correctedSolution", v.correctedSolution.value))
  {
  }

  /** Keys of different lengths differ, so a key whose length no later key has is found where it stands. */
  lemma GetByLength(fs: seq<(string, Value)>, i: nat, key: string)
    requires i < |fs| && fs[i].0 == key
    requires forall j :: 0 <= j < |fs| && j != i ==> |fs[j].0| != |key|
    ensures Get(JObj(fs), key) == Some(fs[i].1)
  {
    GetLast(fs, i, key);
  }

  /**
   * Normalisation neither clamps the score nor applies the 80-point rule
   * stated in the prompt: an object carrying only `isValid` and `score`
   * keeps both exactly as the model sent them.
   */
  lemma NoScoreRule(valid: bool, score: int, defaultSummary: string, reasoning: Option<string>)
    ensures var r := Normalise(JObj([("isValid", JBool(valid)), ("score", JNum(score))]), defaultSummary, reasoning);
      r.isValid == JBool(valid) && r.score == JNum(score)
  {
    var fs := [("isValid", JBool(valid)), ("score", JNum(score))];
    GetLast(fs, 0, "isValid");
    GetLast(fs, 1, "score");
  }

  // ---------------------------------------------------------------------------
  // Auditing one question

  /** The inner `try`: clean, parse and normalise; `Err` is what `${parseError}` prints. */
  function ReadVerdict(content: string, parse: string -> Result<Value, string>, defaultSummary: string,
                       reasoning: Option<string>): (r: Result<Verdict, string>)
    ensures r.Err? <==> parse(Clean(content)).Err? || parse(Clean(content)) == Ok(JNull)
    ensures r.Ok? && defaultSummary != "" ==> IsNormal(r.value)
  {
    match parse(Clean(content))
    case Err(e) => Err(e)
    case Ok(JNull) => Err(NullReadError)
    case Ok(p) => Ok(Normalise(p, defaultSummary, reasoning))
  }

  /** `response.data.choices[0].message` exists. */
  predicate HasMessage(reply: Reply) {
    reply.choices.Some? && |reply.choices.value| > 0 && reply.choices.value[0].message.Some?
  }

  function FirstMessage(reply: Reply): Message
    requires HasMessage(reply)
  {
    reply.choices.value[0].message.value
  }

  /** The call succeeded and its first message carries content that is not blank. */
  predicate Usable(call: Result<Reply, string>) {
    && call.Ok? && HasMessage(call.value)
    && FirstMessage(call.value).content.Some?
    && Trim(FirstMessage(call.value).content.value) != ""
  }

  /** The verdict returned when the reply of `auditMathQuestion` cannot be read. */
  function ParseFailure(parseError: string, content: string): (r: Verdict)
    ensures content != "" ==> IsNormal(r)
  {
    Verdict(JBool(false), JNum(0), [JStr(ParseIssue)], [JStr(ParseSuggestion)], None,
            JStr(ParseSummaryPrefix + parseError), Some(content))
  }

  /** `auditMathQuestion`: every failure is rethrown with one prefix, a parse failure is a verdict. */
  function AuditMathQuestion(call: Result<Reply, string>, parse: string -> Result<Value, string>): (r: Result<Verdict, string>)
    ensures r.Err? <==> !Usable(call)
    ensures r.Err? ==> StartsWith(r.error, AuditPrefix)
    ensures r.Ok? ==> IsNormal(r.value)
  {
    match call
    case Err(m) => Err(AuditPrefix + m)
    case Ok(reply) =>
      if !HasMessage(reply) then Err(AuditPrefix + FormatError)
      else
        var msg := FirstMessage(reply);
        match msg.content
        case None => Err(AuditPrefix + UndefinedRead("length"))
        case Some(content) =>
          if content == "" || Trim(content) == "" then Err(AuditPrefix + EmptyError)
          else
            match ReadVerdict(content, parse, DefaultSummary, msg.reasoningContent)
            case Ok(v) => Ok(v)
            case Err(e) => Ok(ParseFailure(e, content))
  }

  /** Which message each rejected reply is rethrown with. */
  lemma AuditErrors(call: Result<Reply, string>, parse: string -> Result<Value, string>)
    ensures call.Err? ==> AuditMathQuestion(call, parse) == Err(AuditPrefix + call.error)
    ensures call.Ok? && !HasMessage(call.value) ==> AuditMathQuestion(call, parse) == Err(AuditPrefix + FormatError)
    ensures call.Ok? && HasMessage(call.value) && FirstMessage(call.value).content.None? ==>
      AuditMathQuestion(call, parse) == Err(AuditPrefix + UndefinedRead("length"))
    ensures (call.Ok? && HasMessage(call.value) && FirstMessage(call.value).content.Some? &&
             Trim(FirstMessage(call.value).content.value) == "") ==>
      AuditMathQuestion(call, parse) == Err(AuditPrefix + EmptyError)
  {
  }

  /** An unreadable reply gives the rejection verdict that keeps the raw content. */
  lemma AuditParseFailure(call: Result<Reply, string>, parse: string -> Result<Value, string>)
    requires Usable(call)
    requires var c := Clean(FirstMessage(call.value).content.value); parse(c).Err? || parse(c) == Ok(JNull)
    ensures var content := FirstMessage(call.value).content.value;
      var e := if parse(Clean(content)).Err? then parse(Clean(content)).error else NullReadError;
      var r := AuditMathQuestion(call, parse);
      r.Ok? && r.value.isValid == JBool(false) && r.value.score == JNum(0) &&
      r.value.issues == [JStr(ParseIssue)] && r.value.suggestions == [JStr(ParseSuggestion)] &&
      r.value.correctedSolution.None? && r.value.auditSummary == JStr(ParseSummaryPrefix + e) &&
      r.value.reasoningProcess == Some(content)
  {
  }

  /**
   * A reply fenced as "```json\n…\n```" around a backtick-free body is
   * parsed from the trimmed body, and the verdict is its normal form.
   */
  lemma AuditFencedReply(call: Result<Reply, string>, parse: string -> Result<Value, string>, body: string, parsed: Value)
    requires call.Ok? && HasMessage(call.value)
    requires FirstMessage(call.value).content == Some(FenceJson + "\n" + body + "\n" + Fence)
    requires NoBacktick(body) && parse(Trim(body)) == Ok(parsed) && parsed != JNull
    ensures AuditMathQuestion(call, parse) ==
      Ok(Normalise(parsed, DefaultSummary, FirstMessage(call.value).reasoningContent))
  {
    var content := FenceJson + "\n" + body + "\n" + Fence;
    CleanFencedBlock(body);
    assert Trim(content) != "" by {
      FencedNotBlank(body);
    }
  }

  lemma FencedNotBlank(body: string)
    ensures Trim(FenceJson + "\n" + body + "\n" + Fence) != ""
  {
    var s := FenceJson + "\n" + body + "\n" + Fence;
    PrintableIsNotSpace('`');
    assert s[0] == '`';
    LeadingEndIs(s, 0, 0);
    TrimAt(s);
  }

  // ---------------------------------------------------------------------------
  // Auditing one question with the reasoning model

  /** The verdict returned when the reply of `auditMathQuestionWithReasoning` cannot be read. */
  function ReasoningParseFailure(parseError: string, content: string, reasoning: Option<string>): (r: Verdict)
    ensures FieldsNormal(r)
    ensures r.reasoningProcess.Some?
  {
    var kept := if reasoning.Some? && reasoning.value != "" then reasoning.value else content;
    Verdict(JBool(false), JNum(0), [JStr(ReasoningParseIssue)], [JStr(ReasoningParseSuggestion)], None,
            JStr(ReasoningParseSummaryPrefix + parseError), Some(kept))
  }

  /**
   * `auditMathQuestionWithReasoning`: no format or emptiness check, so a
   * missing field surfaces as the `TypeError` of the property read that fails.
   */
  function AuditWithReasoning(call: Result<Reply, string>, parse: string -> Result<Value, string>): (r: Result<Verdict, string>)
    ensures r.Err? <==> !(call.Ok? && HasMessage(call.value) && FirstMessage(call.value).content.Some?)
    ensures r.Err? ==> StartsWith(r.error, ReasoningPrefix)
    ensures r.Ok? ==> FieldsNormal(r.value)
  {
    match call
    case Err(m) => Err(ReasoningPrefix + m)
    case Ok(reply) =>
      match reply.choices
      case None => Err(ReasoningPrefix + UndefinedRead("0"))
      case Some(cs) =>
        if cs == [] then Err(ReasoningPrefix + UndefinedRead("message"))
        else
          match cs[0].message
          case None => Err(ReasoningPrefix + UndefinedRead("content"))
          case Some(msg) =>
            match msg.content
            case None => Err(ReasoningPrefix + UndefinedRead("length"))
            case Some(content) =>
              match ReadVerdict(content, parse, ReasoningDefaultSummary, msg.reasoningContent)
              case Ok(v) => Ok(v)
              case Err(e) => Ok(ReasoningParseFailure(e, content, msg.reasoningContent))
  }

  /** Which property read fails for each malformed reply. */
  lemma ReasoningErrors(call: Result<Reply, string>, parse: string -> Result<Value, string>)
    ensures call.Err? ==> AuditWithReasoning(call, parse) == Err(ReasoningPrefix + call.error)
    ensures call.Ok? && call.value.choices.None? ==>
      AuditWithReasoning(call, parse) == Err(ReasoningPrefix + UndefinedRead("0"))
    ensures call.Ok? && call.value.choices == Some([]) ==>
      AuditWithReasoning(call, parse) == Err(ReasoningPrefix + UndefinedRead("message"))
    ensures (call.Ok? && call.value.choices.Some? && |call.value.choices.value| > 0 &&
             call.value.choices.value[0].message.None?) ==>
      AuditWithReasoning(call, parse) == Err(ReasoningPrefix + UndefinedRead("content"))
    ensures call.Ok? && HasMessage(call.value) && FirstMessage(call.value).content.None? ==>
      AuditWithReasoning(call, parse) == Err(ReasoningPrefix + UndefinedRead("length"))
  {
  }

  /**
   * An unreadable reply gives the rejection verdict; even empty content does,
   * and the reasoning text, when there is one, is kept instead of the content.
   */
  lemma ReasoningParseFailureVerdict(call: Result<Reply, string>, parse: string -> Result<Value, string>)
    requires call.Ok? && HasMessage(call.value) && FirstMessage(call.value).content.Some?
    requires parse(Clean(FirstMessage(call.value).content.value)).Err?
    ensures var msg := FirstMessage(call.value);
      var r := AuditWithReasoning(call, parse);
      r.Ok? && r.value.isValid == JBool(false) && r.value.score == JNum(0) &&
      r.value.issues == [JStr(ReasoningParseIssue)] && r.value.suggestions == [JStr(ReasoningParseSuggestion)] &&
      r.value.auditSummary == JStr(ReasoningParseSummaryPrefix + parse(Clean(msg.content.value)).error) &&
      r.value.reasoningProcess == Some(if msg.reasoningContent.Some? && msg.reasoningContent.value != ""
        then msg.reasoningContent.value else msg.content.value)
  {
  }

  // ---------------------------------------------------------------------------
  // Batch audit

  /** The rejection recorded for a question whose audit threw `new Error(message)`. */
  function BatchFailure(message: string): (r: Verdict)
    ensures !Truthy(r.isValid) && r.score == JNum(0) && |r.issues| == 1
    ensures r.issues[0] == JStr(BatchIssuePrefix + "Error: " + message)
  {
    Verdict(JBool(false), JNum(0), [JStr(BatchIssuePrefix + "Error: " + message)], [JStr(BatchSuggestion)], None,
            JStr(BatchSummary), None)
  }

  /** What the batch records for one question: the verdict, or the rejection for the error thrown. */
  function BatchVerdict(call: Result<Reply, string>, parse: string -> Result<Value, string>): (r: Verdict)
    ensures AuditMathQuestion(call, parse).Ok? ==> r == AuditMathQuestion(call, parse).value
    ensures AuditMathQuestion(call, parse).Err? ==> r == BatchFailure(AuditMathQuestion(call, parse).error)
  {
    match AuditMathQuestion(call, parse)
    case Ok(v) => v
    case Err(m) => BatchFailure(m)
  }

  /** The verdicts of a whole batch: item `k` depends on call `k` alone. */
  function BatchSpec(calls: seq<Result<Reply, string>>, parse: string -> Result<Value, string>): (r: seq<Verdict>)
    ensures |r| == |calls|
  {
    seq(|calls|, k requires 0 <= k < |calls| => BatchVerdict(calls[k], parse))
  }

  /**
   * `batchAuditQuestions`: `calls[i]` is the outcome of the request made for
   * `questions[i]`. One verdict per question in order; `pauses` lists the
   * indices after which the one-second wait happens.
   */
  method BatchAuditQuestions(questions: seq<GeneratedQuestion>, calls: seq<Result<Reply, string>>,
                             parse: string -> Result<Value, string>)
    returns (results: seq<Verdict>, pauses: seq<nat>)
    requires |calls| == |questions|
    ensures |results| == |questions|
    ensures results == BatchSpec(calls, parse)
    ensures forall i :: i in pauses <==> 0 <= i < |questions| - 1 && Usable(calls[i])
    ensures forall a, b :: 0 <= a < b < |pauses| ==> pauses[a] < pauses[b]
  {
    results, pauses := [], [];
    var i := 0;
    while i < |questions|
      invariant 0 <= i <= |questions| && |results| == i
      invariant results == BatchSpec(calls, parse)[..i]
      invariant forall k :: k in pauses <==> 0 <= k < i && k < |questions| - 1 && Usable(calls[k])
      invariant forall a, b :: 0 <= a < b < |pauses| ==> pauses[a] < pauses[b]
      invariant forall a :: 0 <= a < |pauses| ==> pauses[a] < i
    {
      var verdict, audited := AuditOrReject(calls[i], parse);
      results := results + [verdict];
      if audited && i < |questions| - 1 {
        pauses := pauses + [i];
      }
      i := i + 1;
    }
  }

  /** The `try`/`catch` around one audit in the batch loop. */
  method AuditOrReject(call: Result<Reply, string>, parse: string -> Result<Value, string>)
    returns (verdict: Verdict, audited: bool)
    ensures verdict == BatchVerdict(call, parse)
    ensures audited <==> Usable(call)
  {
    var outcome := AuditMathQuestion(call, parse);
    if outcome.Ok? {
      verdict, audited := outcome.value, true;
    } else {
      verdict, audited := BatchFailure(outcome.error), false;
    }
  }

  /** Every failed item of a batch is a rejection and carries the rethrown message. */
  lemma BatchFailureIsRejection(call: Result<Reply, string>, parse: string -> Result<Value, string>)
    requires AuditMathQuestion(call, parse).Err?
    ensures var r := BatchFailure(AuditMathQuestion(call, parse).error);
      !Truthy(r.isValid) && r.score == JNum(0) && |r.issues| == 1 &&
      StartsWith(r.issues[0].s, BatchIssuePrefix + "Error: " + AuditPrefix)
  {
    var m := AuditMathQuestion(call, parse).error;
    var p := BatchIssuePrefix + "Error: ";
    assert m[..|AuditPrefix|] == AuditPrefix;
    assert (p + m)[..|p + AuditPrefix|] == p + AuditPrefix;
  }
}
