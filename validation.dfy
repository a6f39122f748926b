/**
 * The request-body validators. A schema is a list of keys, each with Joi's
 * base type, `required()` or optional, an optional `valid(...)` list, a
 * list of rules and its `messages({...})` overrides. Joi checks the keys in
 * schema order and, in each key, presence first, then the `valid` list,
 * then the base type, then the rules in the order they were added; it
 * stops at the first error (`abortEarly`), and only when every key passes
 * does it reject keys the schema does not name. The middleware answers 400
 * with the messages joined by ", ", or calls `next`.
 */
module Validation {
  import opened Wrappers
  import opened Text
  import opened Json
  import opened Http

  // ------------------------------------------------------------ the schema language

  /** Joi's base type of a key. */
  datatype Kind = Text | Number

  /** A rule added on top of the base type. */
  datatype Rule =
    | Alphanum
    | MinLength(min: nat)
    | MaxLength(max: nat)
    | PhonePattern
    | EmailAddress
    | Integer
    | Positive
    | AtLeast(low: int)
    | AtMost(high: int)

  /** One key of an object schema; `only` is the `valid(...)` list, empty when there is none. */
  datatype Field = Field(key: string, kind: Kind, required: bool, only: seq<string>, rules: seq<Rule>, messages: seq<(ErrorCode, string)>)

  /** The error Joi reports for a key, with what its default message shows. */
  datatype Failure =
    | Required
    | NotOneOf(valids: seq<string>)
    | NotString
    | Empty
    | NotAlphanum
    | TooShort(min: nat)
    | TooLong(max: nat)
    | NoPattern(value: string)
    | NotEmail
    | NotNumber
    | NotInteger
    | NotPositive
    | Below(low: int)
    | Above(high: int)

  /** Joi's error codes, the keys of `messages({...})`. */
  datatype ErrorCode =
    | AnyRequired | AnyOnly
    | StringBase | StringEmpty | StringAlphanum | StringMin | StringMax | StringPatternBase | StringEmail
    | NumberBase | NumberInteger | NumberPositive | NumberMin | NumberMax

  /** The code's name as Joi writes it. */
  function CodeName(c: ErrorCode): string {
    match c
    case AnyRequired => "any.required"
    case AnyOnly => "any.only"
    case StringBase => "string.base"
    case StringEmpty => "string.empty"
    case StringAlphanum => "string.alphanum"
    case StringMin => "string.min"
    case StringMax => "string.max"
    case StringPatternBase => "string.pattern.base"
    case StringEmail => "string.email"
    case NumberBase => "number.base"
    case NumberInteger => "number.integer"
    case NumberPositive => "number.positive"
    case NumberMin => "number.min"
    case NumberMax => "number.max"
  }

  /** The code a failure is reported under. */
  function Code(f: Failure): ErrorCode {
    match f
    case Required => AnyRequired
    case NotOneOf(_) => AnyOnly
    case NotString => StringBase
    case Empty => StringEmpty
    case NotAlphanum => StringAlphanum
    case TooShort(_) => StringMin
    case TooLong(_) => StringMax
    case NoPattern(_) => StringPatternBase
    case NotEmail => StringEmail
    case NotNumber => NumberBase
    case NotInteger => NumberInteger
    case NotPositive => NumberPositive
    case Below(_) => NumberMin
    case Above(_) => NumberMax
  }

  /** `/^1[3-9]\d{9}$/` as Joi prints it. */
  const PhoneRegex: string := "/^1[3-9]\\d{9}$/"

  /** A key as Joi's default messages print it: in double quotes. */
  function Label(key: string): string {
    "\"" + key + "\""
  }

  /** Joi's English message for a failure that the schema does not override. */
  function DefaultMessage(key: string, f: Failure): string {
    var l := Label(key);
    match f
    case Required => l + " is required"
    case NotOneOf(vs) => l + " must be " + (if |vs| == 1 then "" else "one of ") + "[" + Join(vs, ", ") + "]"
    case NotString => l + " must be a string"
    case Empty => l + " is not allowed to be empty"
    case NotAlphanum => l + " must only contain alpha-numeric characters"
    case TooShort(n) => l + " length must be at least " + IntText(n) + " characters long"
    case TooLong(n) => l + " length must be less than or equal to " + IntText(n) + " characters long"
    case NoPattern(v) => l + " with value " + v + " fails to match the required pattern: " + PhoneRegex
    case NotEmail => l + " must be a valid email"
    case NotNumber => l + " must be a number"
    case NotInteger => l + " must be an integer"
    case NotPositive => l + " must be a positive number"
    case Below(n) => l + " must be greater than or equal to " + IntText(n)
    case Above(n) => l + " must be less than or equal to " + IntText(n)
  }

  /** The override for an error code: the first entry with that code. */
  function Custom(ms: seq<(ErrorCode, string)>, code: ErrorCode): Option<string> {
    if ms == [] then None
    else if ms[0].0 == code then Some(ms[0].1)
    else Custom(ms[1..], code)
  }

  /** The entry found is the first one with the code. */
  lemma {:induction false} CustomAt(ms: seq<(ErrorCode, string)>, i: nat, code: ErrorCode)
    requires i < |ms| && ms[i].0 == code && forall j | 0 <= j < i :: ms[j].0 != code
    ensures Custom(ms, code) == Some(ms[i].1)
  {
    if i > 0 {
      assert forall j | 0 <= j < i - 1 :: ms[1..][j] == ms[j + 1];
      CustomAt(ms[1..], i - 1, code);
    }
  }

  /** Without an entry for the code there is no override. */
  lemma {:induction false} CustomNone(ms: seq<(ErrorCode, string)>, code: ErrorCode)
    requires forall j | 0 <= j < |ms| :: ms[j].0 != code
    ensures Custom(ms, code) == None
  {
    if ms != [] {
      assert forall j | 0 <= j < |ms| - 1 :: ms[1..][j] == ms[j + 1];
      CustomNone(ms[1..], code);
    }
  }

  /** The message a key's failure is reported with: its override, else Joi's default. */
  function Message(f: Field, failure: Failure): (r: string)
    ensures Custom(f.messages, Code(failure)).Some? ==> r == Custom(f.messages, Code(failure)).value
    ensures Custom(f.messages, Code(failure)).None? ==> r == DefaultMessage(f.key, failure)
  {
    match Custom(f.messages, Code(failure))
    case Some(m) => m
    case None => DefaultMessage(f.key, failure)
  }

  // ------------------------------------------------------------ checking one key

  predicate IsAlnum(c: char) {
    'a' <= c <= 'z' || 'A' <= c <= 'Z' || '0' <= c <= '9'
  }

  /** `/^[a-zA-Z0-9]+$/`. */
  predicate AllAlnum(s: string) {
    s != [] && forall i | 0 <= i < |s| :: IsAlnum(s[i])
  }

  /** `/^1[3-9]\d{9}$/`: eleven digits, '1' first and 3 to 9 second. */
  predicate PhoneShape(s: string) {
    |s| == 11 && s[0] == '1' && '3' <= s[1] <= '9' && forall i | 2 <= i < 11 :: IsDigit(s[i])
  }

  predicate AllDigits(ds: string) {
    forall i | 0 <= i < |ds| :: IsDigit(ds[i])
  }

  /** An optional sign, then decimal digits. */
  function SignedDigits(t: string): Option<int> {
    var sign := if t != [] && (t[0] == '+' || t[0] == '-') then 1 else 0;
    var ds := t[sign..];
    if ds == [] || !AllDigits(ds) then None
    else if sign == 1 && t[0] == '-' then Some(-(DigitsValue(ds) as int))
    else Some(DigitsValue(ds))
  }

  /**
   * The number a string converts to where a number is expected: optional
   * surrounding whitespace, an optional sign, decimal digits.
   */
  function NumericText(s: string): (r: Option<int>)
    ensures r.Some? ==> Trim(s) != ""
  {
    SignedDigits(Trim(s))
  }

  /** The number a value stands for where a number is expected. */
  function NumberValue(x: Value): (r: Option<int>)
    ensures x.JNum? ==> r == Some(x.n)
    ensures !x.JNum? && !x.JStr? ==> r.None?
  {
    match x
    case JNum(n) => Some(n)
    case JStr(s) => NumericText(s)
    case _ => None
  }

  /** Joi's conversion before a number key is checked: a numeric string becomes its number. */
  function Coerce(kind: Kind, x: Value): (r: Value)
    ensures kind == Text ==> r == x
    ensures kind == Number && NumberValue(x).Some? ==> r == JNum(NumberValue(x).value)
    ensures kind == Number && NumberValue(x).None? ==> r == x
  {
    if kind == Number && x.JStr? && NumericText(x.s).Some? then JNum(NumericText(x.s).value) else x
  }

  /** A rule on a value of its base type; a rule of the other base type does not apply. */
  function RuleFailure(r: Rule, x: Value, isEmail: string -> bool): Option<Failure> {
    match r
    case Alphanum => if x.JStr? && !AllAlnum(x.s) then Some(NotAlphanum) else None
    case MinLength(n) => if x.JStr? && |x.s| < n then Some(TooShort(n)) else None
    case MaxLength(n) => if x.JStr? && |x.s| > n then Some(TooLong(n)) else None
    case PhonePattern => if x.JStr? && !PhoneShape(x.s) then Some(NoPattern(x.s)) else None
    case EmailAddress => if x.JStr? && !isEmail(x.s) then Some(NotEmail) else None
    // every number of the model is an integer
    case Integer => None
    case Positive => if x.JNum? && x.n <= 0 then Some(NotPositive) else None
    case AtLeast(n) => if x.JNum? && x.n < n then Some(Below(n)) else None
    case AtMost(n) => if x.JNum? && x.n > n then Some(Above(n)) else None
  }

  /** The first rule, in order, that the value breaks. */
  function FirstRuleFailure(rules: seq<Rule>, x: Value, isEmail: string -> bool): (r: Option<Failure>)
    ensures r.None? <==> forall i | 0 <= i < |rules| :: RuleFailure(rules[i], x, isEmail).None?
    ensures r.Some? ==> exists i | 0 <= i < |rules| ::
      RuleFailure(rules[i], x, isEmail) == r && forall j | 0 <= j < i :: RuleFailure(rules[j], x, isEmail).None?
  {
    if rules == [] then None
    else if RuleFailure(rules[0], x, isEmail).Some? then RuleFailure(rules[0], x, isEmail)
    else
      var r := FirstRuleFailure(rules[1..], x, isEmail);
      assert forall i | 1 <= i < |rules| :: rules[i] == rules[1..][i - 1];
      r
  }

  /**
   * The error of one key, `v` being its value in the body (`None` when the
   * key is absent): presence, then the `valid` list (a listed value passes
   * outright), then the base type, then the rules.
   */
  function FieldFailure(f: Field, v: Option<Value>, isEmail: string -> bool): (r: Option<Failure>)
    ensures v.None? ==> (r.Some? <==> f.required) && (r.Some? ==> r.value == Required)
    ensures v.Some? && f.only != [] ==>
      (r.None? <==> Coerce(f.kind, v.value).JStr? && Coerce(f.kind, v.value).s in f.only)
    ensures v.Some? && f.only == [] && f.kind == Text ==>
      (r.None? <==> v.value.JStr? && v.value.s != "" && FirstRuleFailure(f.rules, v.value, isEmail).None?)
    ensures v.Some? && f.only == [] && f.kind == Number ==>
      (r.None? <==> NumberValue(v.value).Some? && FirstRuleFailure(f.rules, JNum(NumberValue(v.value).value), isEmail).None?)
  {
    if v.None? then (if f.required then Some(Required) else None)
    else
      var x := Coerce(f.kind, v.value);
      if f.only != [] then (if x.JStr? && x.s in f.only then None else Some(NotOneOf(f.only)))
      else match f.kind
        case Text =>
          if !x.JStr? then Some(NotString)
          else if x.s == "" then Some(Empty)
          else FirstRuleFailure(f.rules, x, isEmail)
        case Number =>
          if !x.JNum? then Some(NotNumber) else FirstRuleFailure(f.rules, x, isEmail)
  }

  /** The message a key is rejected with, if it is. */
  function FieldError(f: Field, v: Option<Value>, isEmail: string -> bool): (r: Option<string>)
    ensures r.None? <==> FieldFailure(f, v, isEmail).None?
    ensures r.Some? ==> r.value == Message(f, FieldFailure(f, v, isEmail).value)
  {
    match FieldFailure(f, v, isEmail)
    case None => None
    case Some(failure) => Some(Message(f, failure))
  }

  // ------------------------------------------------------------ checking a body

  /** `"value" must be of type object`: the body is not a JSON object. */
  const NotAnObject: string := "\"value\" must be of type object"

  /** The message of the first key, in schema order, that the body fails. */
  function FirstFieldError(schema: seq<Field>, body: Value, isEmail: string -> bool): (r: Option<string>)
    ensures r.None? <==> forall i | 0 <= i < |schema| :: FieldError(schema[i], Get(body, schema[i].key), isEmail).None?
    ensures r.Some? ==> exists i | 0 <= i < |schema| ::
      FieldError(schema[i], Get(body, schema[i].key), isEmail) == r &&
      forall j | 0 <= j < i :: FieldError(schema[j], Get(body, schema[j].key), isEmail).None?
  {
    if schema == [] then None
    else
      var e := FieldError(schema[0], Get(body, schema[0].key), isEmail);
      if e.Some? then e
      else
        var r := FirstFieldError(schema[1..], body, isEmail);
        assert forall i | 1 <= i < |schema| :: schema[i] == schema[1..][i - 1];
        r
  }

  /** The keys a schema names. */
  function Keys(schema: seq<Field>): (r: set<string>)
    ensures forall k :: k in r <==> exists i | 0 <= i < |schema| :: schema[i].key == k
  {
    set i | 0 <= i < |schema| :: schema[i].key
  }

  /**
   * The first key of the body that the schema does not name. `fs` is the
   * body in `Object.keys` order: integer-like keys first, ascending, then
   * the other keys in the order they were first added, which is not always
   * the order of the request text.
   */
  function UnknownKey(schema: seq<Field>, fs: seq<(string, Value)>): (r: Option<string>)
    ensures r.None? <==> forall i | 0 <= i < |fs| :: fs[i].0 in Keys(schema)
    ensures r.Some? ==> exists i | 0 <= i < |fs| ::
      fs[i].0 == r.value && r.value !in Keys(schema) && forall j | 0 <= j < i :: fs[j].0 in Keys(schema)
  {
    if fs == [] then None
    else if fs[0].0 !in Keys(schema) then Some(fs[0].0)
    else
      var r := UnknownKey(schema, fs[1..]);
      assert forall i | 1 <= i < |fs| :: fs[i] == fs[1..][i - 1];
      r
  }

  /** `error.details` of `schema.validate(body)`: with `abortEarly` at most one message. */
  function Details(schema: seq<Field>, body: Value, isEmail: string -> bool): (r: seq<string>)
    ensures |r| <= 1
    ensures !body.JObj? ==> r == [NotAnObject]
  {
    if !body.JObj? then [NotAnObject]
    else match FirstFieldError(schema, body, isEmail)
      case Some(m) => [m]
      case None =>
        match UnknownKey(schema, body.fields)
        case Some(k) => [Label(k) + " is not allowed"]
        case None => []
  }

  /** A body passes exactly when it is an object, every key passes and no other key is present. */
  lemma Accepted(schema: seq<Field>, body: Value, isEmail: string -> bool)
    ensures Details(schema, body, isEmail) == [] <==>
      body.JObj? &&
      (forall i | 0 <= i < |schema| :: FieldFailure(schema[i], Get(body, schema[i].key), isEmail).None?) &&
      (forall i | 0 <= i < |body.fields| :: body.fields[i].0 in Keys(schema))
  {
  }

  /** The first key that fails decides the one message reported, whatever follows it. */
  lemma FirstFailureReported(schema: seq<Field>, body: Value, isEmail: string -> bool, i: nat)
    requires body.JObj? && i < |schema|
    requires forall j | 0 <= j < i :: FieldFailure(schema[j], Get(body, schema[j].key), isEmail).None?
    requires FieldFailure(schema[i], Get(body, schema[i].key), isEmail).Some?
    ensures Details(schema, body, isEmail) == [FieldError(schema[i], Get(body, schema[i].key), isEmail).value]
  {
    var r := FirstFieldError(schema, body, isEmail);
    var k :| 0 <= k < |schema| &&
      FieldError(schema[k], Get(body, schema[k].key), isEmail) == r &&
      forall j | 0 <= j < k :: FieldError(schema[j], Get(body, schema[j].key), isEmail).None?;
    assert !(k < i) && !(i < k);
  }

  /** Once every key passes, the first body key the schema does not name is reported. */
  lemma UnknownKeyReported(schema: seq<Field>, body: Value, isEmail: string -> bool, i: nat)
    requires body.JObj? && i < |body.fields|
    requires forall j | 0 <= j < |schema| :: FieldFailure(schema[j], Get(body, schema[j].key), isEmail).None?
    requires body.fields[i].0 !in Keys(schema) && forall j | 0 <= j < i :: body.fields[j].0 in Keys(schema)
    ensures Details(schema, body, isEmail) == [Label(body.fields[i].0) + " is not allowed"]
  {
    var r := UnknownKey(schema, body.fields);
    var k :| 0 <= k < |body.fields| && body.fields[k].0 == r.value && r.value !in Keys(schema) &&
      forall j | 0 <= j < k :: body.fields[j].0 in Keys(schema);
    assert !(k < i) && !(i < k);
  }

  // ------------------------------------------------------------ the middleware

  const ValidationFailed: string := "请求数据验证失败"

  /**
   * `validate(schema)`: a rejected body is answered 400 with the details
   * joined by ", " and `next` is not called; an accepted one calls `next`
   * once and sends nothing.
   */
  method Validate(ex: Exchange, schema: seq<Field>, body: Value, isEmail: string -> bool)
    modifies ex
    ensures ex.user == old(ex.user)
    ensures Details(schema, body, isEmail) != [] ==>
      ex.response == Some(Response(StatusBadRequest, ValidationFailed, Some(Join(Details(schema, body, isEmail), ", ")))) &&
      ex.nextCalls == old(ex.nextCalls)
    ensures Details(schema, body, isEmail) == [] ==>
      ex.response == old(ex.response) && ex.nextCalls == old(ex.nextCalls) + 1
  {
    var details := Details(schema, body, isEmail);
    if details != [] {
      ex.response := Some(Response(StatusBadRequest, ValidationFailed, Some(Join(details, ", "))));
      return;
    }
    ex.nextCalls := ex.nextCalls + 1;
  }

  /** With one message the details are that message. */
  lemma SingleDetail(schema: seq<Field>, body: Value, isEmail: string -> bool)
    requires Details(schema, body, isEmail) != []
    ensures Join(Details(schema, body, isEmail), ", ") == Details(schema, body, isEmail)[0]
  {
  }

  // ------------------------------------------------------------ the conversion of numbers

  /** Whitespace around a numeric string does not change its number. */
  lemma NumericTextPadded(p: string, t: string, q: string)
    requires AllSpace(p) && AllSpace(q)
    ensures NumericText(p + t + q) == NumericText(t)
  {
    TrimPadded(p, t, q);
  }

  /** The digits of a natural number convert back to it. */
  lemma NumericTextOfDigits(m: nat)
    ensures NumericText(Digits(m)) == Some(m)
    ensures NumericText(IntText(m)) == Some(m)
  {
    var ds := Digits(m);
    PrintableIsNotSpace(ds[0]);
    PrintableIsNotSpace(ds[|ds| - 1]);
    TrimTrimmed(ds);
    assert AllDigits(ds);
    DigitsValueOf(m);
  }

  /** A minus sign and the digits of a natural number convert back to its negation. */
  lemma NumericTextOfNegative(m: nat)
    ensures NumericText("-" + Digits(m)) == Some(-(m as int))
    ensures m > 0 ==> NumericText(IntText(-(m as int))) == Some(-(m as int))
  {
    var ds := Digits(m);
    var t := "-" + ds;
    PrintableIsNotSpace(t[0]);
    PrintableIsNotSpace(t[|t| - 1]);
    TrimTrimmed(t);
    assert t[1..] == ds;
    assert AllDigits(ds);
    DigitsValueOf(m);
  }

  /** A number written out, with whitespace around it, converts back to itself. */
  lemma NumericTextOfIntText(n: int, p: string, q: string)
    requires AllSpace(p) && AllSpace(q)
    ensures NumericText(p + IntText(n) + q) == Some(n)
  {
    NumericTextPadded(p, IntText(n), q);
    if n < 0 {
      NumericTextOfNegative(-n);
    } else {
      NumericTextOfDigits(n);
    }
  }

  // ------------------------------------------------------------ the registration schema

  // the overriding messages of the registration and login schemas
  const UsernameNotAlphanum: string := "用户名只能包含字母和数字"
  const UsernameTooShort: string := "用户名长度至少3位"
  const UsernameTooLong: string := "用户名长度不能超过30位"
  const UsernameRequired: string := "用户名为必填项"
  const EmailInvalid: string := "邮箱格式不正确"
  const EmailRequired: string := "邮箱为必填项"
  const PasswordTooShort: string := "密码长度至少6位"
  const PasswordRequired: string := "密码为必填项"
  const NameTooShort: string := "姓名长度至少2位"
  const NameTooLong: string := "姓名长度不能超过50位"
  const NameRequired: string := "姓名为必填项"
  const PhoneInvalid: string := "手机号格式不正确"
  const GradeNotListed: string := "年级必须是高一、高二或高三"
  const GradeRequired: string := "年级为必填项"

  const Username: Field := Field("username", Text, true, [], [Alphanum, MinLength(3), MaxLength(30)], [
    (StringAlphanum, UsernameNotAlphanum),
    (StringMin, UsernameTooShort),
    (StringMax, UsernameTooLong),
    (AnyRequired, UsernameRequired)])

  const Email: Field := Field("email", Text, true, [], [EmailAddress], [
    (StringEmail, EmailInvalid),
    (AnyRequired, EmailRequired)])

  const Password: Field := Field("password", Text, true, [], [MinLength(6)], [
    (StringMin, PasswordTooShort),
    (AnyRequired, PasswordRequired)])

  const Name: Field := Field("name", Text, true, [], [MinLength(2), MaxLength(50)], [
    (StringMin, NameTooShort),
    (StringMax, NameTooLong),
    (AnyRequired, NameRequired)])

  const Phone: Field := Field("phone", Text, false, [], [PhonePattern], [
    (StringPatternBase, PhoneInvalid)])

  const School: Field := Field("school", Text, false, [], [MaxLength(100)], [])

  const Grades: seq<string> := ["高一", "高二", "高三"]

  const Grade: Field := Field("grade", Text, true, Grades, [], [
    (AnyOnly, GradeNotListed),
    (AnyRequired, GradeRequired)])

  const RegisterSchema: seq<Field> := [Username, Email, Password, Name, Phone, School, Grade]

  /** A string value, with its length between `lo` and `hi`. */
  predicate TextBetween(v: Option<Value>, lo: nat, hi: nat) {
    v.Some? && v.value.JStr? && lo <= |v.value.s| <= hi
  }

  predicate UsernameOk(v: Option<Value>) {
    TextBetween(v, 3, 30) && forall i | 0 <= i < |v.value.s| :: IsAlnum(v.value.s[i])
  }

  predicate EmailOk(v: Option<Value>, isEmail: string -> bool) {
    v.Some? && v.value.JStr? && v.value.s != "" && isEmail(v.value.s)
  }

  predicate PasswordOk(v: Option<Value>) {
    v.Some? && v.value.JStr? && |v.value.s| >= 6
  }

  predicate NameOk(v: Option<Value>) {
    TextBetween(v, 2, 50)
  }

  predicate PhoneOk(v: Option<Value>) {
    v.None? || (v.value.JStr? && PhoneShape(v.value.s))
  }

  predicate SchoolOk(v: Option<Value>) {
    v.None? || TextBetween(v, 1, 100)
  }

  predicate GradeOk(v: Option<Value>) {
    v == Some(JStr("高一")) || v == Some(JStr("高二")) || v == Some(JStr("高三"))
  }

  lemma UsernameRule(v: Option<Value>, isEmail: string -> bool)
    ensures FieldFailure(Username, v, isEmail).None? <==> UsernameOk(v)
  {
    if v.Some? && v.value.JStr? {
      RulesPass3(Username.rules, v.value, isEmail);
    }
  }

  /** Three rules pass exactly when each does. */
  lemma RulesPass3(rules: seq<Rule>, x: Value, isEmail: string -> bool)
    requires |rules| == 3
    ensures FirstRuleFailure(rules, x, isEmail).None? <==>
      RuleFailure(rules[0], x, isEmail).None? && RuleFailure(rules[1], x, isEmail).None? && RuleFailure(rules[2], x, isEmail).None?
  {
  }

  /** Two rules pass exactly when each does. */
  lemma RulesPass2(rules: seq<Rule>, x: Value, isEmail: string -> bool)
    requires |rules| == 2
    ensures FirstRuleFailure(rules, x, isEmail).None? <==>
      RuleFailure(rules[0], x, isEmail).None? && RuleFailure(rules[1], x, isEmail).None?
  {
  }

  lemma EmailRule(v: Option<Value>, isEmail: string -> bool)
    ensures FieldFailure(Email, v, isEmail).None? <==> EmailOk(v, isEmail)
  {
  }

  lemma PasswordRule(v: Option<Value>, isEmail: string -> bool)
    ensures FieldFailure(Password, v, isEmail).None? <==> PasswordOk(v)
  {
  }

  lemma NameRule(v: Option<Value>, isEmail: string -> bool)
    ensures FieldFailure(Name, v, isEmail).None? <==> NameOk(v)
  {
    if v.Some? && v.value.JStr? {
      RulesPass2(Name.rules, v.value, isEmail);
    }
  }

  lemma PhoneRule(v: Option<Value>, isEmail: string -> bool)
    ensures FieldFailure(Phone, v, isEmail).None? <==> PhoneOk(v)
  {
  }

  lemma SchoolRule(v: Option<Value>, isEmail: string -> bool)
    ensures FieldFailure(School, v, isEmail).None? <==> SchoolOk(v)
  {
  }

  lemma GradeRule(v: Option<Value>, isEmail: string -> bool)
    ensures FieldFailure(Grade, v, isEmail).None? <==> GradeOk(v)
  {
  }

  const RegisterKeys: set<string> := {"username", "email", "password", "name", "phone", "school", "grade"}

  /**
   * A registration body as the schema demands it: an object whose username is
   * 3 to 30 letters and digits, whose email is accepted by the address check,
   * whose password has at least 6 and name 2 to 50 characters, whose phone,
   * if sent, is a mainland mobile number and school, if sent, 1 to 100
   * characters, whose grade is 高一, 高二 or 高三, and that has no other key.
   */
  predicate ValidRegistration(body: Value, isEmail: string -> bool) {
    body.JObj? &&
    UsernameOk(Get(body, "username")) && EmailOk(Get(body, "email"), isEmail) &&
    PasswordOk(Get(body, "password")) && NameOk(Get(body, "name")) &&
    PhoneOk(Get(body, "phone")) && SchoolOk(Get(body, "school")) && GradeOk(Get(body, "grade")) &&
    forall i | 0 <= i < |body.fields| :: body.fields[i].0 in RegisterKeys
  }

  lemma RegisterKeysAre()
    ensures Keys(RegisterSchema) == RegisterKeys
  {
    var s := RegisterSchema;
    assert s[0].key == "username" && s[1].key == "email" && s[2].key == "password" && s[3].key == "name";
    assert s[4].key == "phone" && s[5].key == "school" && s[6].key == "grade";
  }

  /** `registerSchema` accepts exactly the valid registrations. */
  lemma RegistrationAccepted(body: Value, isEmail: string -> bool)
    ensures Details(RegisterSchema, body, isEmail) == [] <==> ValidRegistration(body, isEmail)
  {
    Accepted(RegisterSchema, body, isEmail);
    RegisterKeysAre();
    if ValidRegistration(body, isEmail) {
      RegistrationFieldsPass(body, isEmail);
    }
    if body.JObj? && forall i | 0 <= i < |RegisterSchema| :: FieldFailure(RegisterSchema[i], Get(body, RegisterSchema[i].key), isEmail).None? {
      RegistrationFieldsValid(body, isEmail);
    }
  }

  lemma RegistrationFieldsPass(body: Value, isEmail: string -> bool)
    requires ValidRegistration(body, isEmail)
    ensures forall i | 0 <= i < |RegisterSchema| :: FieldFailure(RegisterSchema[i], Get(body, RegisterSchema[i].key), isEmail).None?
  {
    forall i | 0 <= i < |RegisterSchema|
      ensures FieldFailure(RegisterSchema[i], Get(body, RegisterSchema[i].key), isEmail).None?
    {
      if i == 0 { UsernameRule(Get(body, "username"), isEmail); }
      else if i == 1 { EmailRule(Get(body, "email"), isEmail); }
      else if i == 2 { PasswordRule(Get(body, "password"), isEmail); }
      else if i == 3 { NameRule(Get(body, "name"), isEmail); }
      else if i == 4 { PhoneRule(Get(body, "phone"), isEmail); }
      else if i == 5 { SchoolRule(Get(body, "school"), isEmail); }
      else { GradeRule(Get(body, "grade"), isEmail); }
    }
  }

  lemma RegistrationFieldsValid(body: Value, isEmail: string -> bool)
    requires forall i | 0 <= i < |RegisterSchema| :: FieldFailure(RegisterSchema[i], Get(body, RegisterSchema[i].key), isEmail).None?
    ensures UsernameOk(Get(body, "username")) && EmailOk(Get(body, "email"), isEmail)
    ensures PasswordOk(Get(body, "password")) && NameOk(Get(body, "name"))
    ensures PhoneOk(Get(body, "phone")) && SchoolOk(Get(body, "school")) && GradeOk(Get(body, "grade"))
  {
    var s := RegisterSchema;
    assert FieldFailure(s[0], Get(body, s[0].key), isEmail).None?;
    UsernameRule(Get(body, "username"), isEmail);
    assert FieldFailure(s[1], Get(body, s[1].key), isEmail).None?;
    EmailRule(Get(body, "email"), isEmail);
    assert FieldFailure(s[2], Get(body, s[2].key), isEmail).None?;
    PasswordRule(Get(body, "password"), isEmail);
    assert FieldFailure(s[3], Get(body, s[3].key), isEmail).None?;
    NameRule(Get(body, "name"), isEmail);
    assert FieldFailure(s[4], Get(body, s[4].key), isEmail).None?;
    PhoneRule(Get(body, "phone"), isEmail);
    assert FieldFailure(s[5], Get(body, s[5].key), isEmail).None?;
    SchoolRule(Get(body, "school"), isEmail);
    assert FieldFailure(s[6], Get(body, s[6].key), isEmail).None?;
    GradeRule(Get(body, "grade"), isEmail);
  }

  /** The failure of each way a username can be rejected, in Joi's order. */
  lemma UsernameFailures(v: Option<Value>, isEmail: string -> bool)
    ensures v.None? ==> FieldFailure(Username, v, isEmail) == Some(Required)
    ensures v.Some? && !v.value.JStr? ==> FieldFailure(Username, v, isEmail) == Some(NotString)
    ensures v == Some(JStr("")) ==> FieldFailure(Username, v, isEmail) == Some(Empty)
    ensures v.Some? && v.value.JStr? && v.value.s != "" && !AllAlnum(v.value.s) ==>
      FieldFailure(Username, v, isEmail) == Some(NotAlphanum)
    ensures v.Some? && v.value.JStr? && AllAlnum(v.value.s) && |v.value.s| < 3 ==>
      FieldFailure(Username, v, isEmail) == Some(TooShort(3))
    ensures v.Some? && v.value.JStr? && AllAlnum(v.value.s) && |v.value.s| > 30 ==>
      FieldFailure(Username, v, isEmail) == Some(TooLong(30))
  {
    if v.Some? && v.value.JStr? && AllAlnum(v.value.s) {
      var x := v.value;
      assert Username.rules[1..] == [MinLength(3), MaxLength(30)];
      assert RuleFailure(Alphanum, x, isEmail).None?;
      assert FirstRuleFailure(Username.rules, x, isEmail) == FirstRuleFailure([MinLength(3), MaxLength(30)], x, isEmail);
    }
  }

  lemma UsernameMessages()
    ensures Message(Username, Required) == UsernameRequired
    ensures Message(Username, NotString) == DefaultMessage("username", NotString)
    ensures Message(Username, Empty) == DefaultMessage("username", Empty)
    ensures Message(Username, NotAlphanum) == UsernameNotAlphanum
    ensures Message(Username, TooShort(3)) == UsernameTooShort
    ensures Message(Username, TooLong(30)) == UsernameTooLong
  {
    var ms := Username.messages;
    CustomAt(ms, 0, StringAlphanum);
    CustomAt(ms, 1, StringMin);
    CustomAt(ms, 2, StringMax);
    CustomAt(ms, 3, AnyRequired);
    CustomNone(ms, StringBase);
    CustomNone(ms, StringEmpty);
  }

  /** The message of each way a username can be rejected. */
  lemma UsernameErrors(v: Option<Value>, isEmail: string -> bool)
    ensures v.None? ==> FieldError(Username, v, isEmail) == Some(UsernameRequired)
    ensures v.Some? && !v.value.JStr? ==> FieldError(Username, v, isEmail) == Some(DefaultMessage("username", NotString))
    ensures v == Some(JStr("")) ==> FieldError(Username, v, isEmail) == Some(DefaultMessage("username", Empty))
    ensures v.Some? && v.value.JStr? && v.value.s != "" && !AllAlnum(v.value.s) ==>
      FieldError(Username, v, isEmail) == Some(UsernameNotAlphanum)
    ensures v.Some? && v.value.JStr? && AllAlnum(v.value.s) && |v.value.s| < 3 ==>
      FieldError(Username, v, isEmail) == Some(UsernameTooShort)
    ensures v.Some? && v.value.JStr? && AllAlnum(v.value.s) && |v.value.s| > 30 ==>
      FieldError(Username, v, isEmail) == Some(UsernameTooLong)
  {
    UsernameFailures(v, isEmail);
    UsernameMessages();
  }

  lemma EmailErrors(v: Option<Value>, isEmail: string -> bool)
    ensures v.None? ==> FieldError(Email, v, isEmail) == Some(EmailRequired)
    ensures v.Some? && v.value.JStr? && v.value.s != "" && !isEmail(v.value.s) ==> FieldError(Email, v, isEmail) == Some(EmailInvalid)
  {
    CustomAt(Email.messages, 0, StringEmail);
    CustomAt(Email.messages, 1, AnyRequired);
  }

  lemma PasswordErrors(v: Option<Value>, isEmail: string -> bool)
    ensures v.None? ==> FieldError(Password, v, isEmail) == Some(PasswordRequired)
    ensures v.Some? && v.value.JStr? && 0 < |v.value.s| < 6 ==> FieldError(Password, v, isEmail) == Some(PasswordTooShort)
  {
    CustomAt(Password.messages, 0, StringMin);
    CustomAt(Password.messages, 1, AnyRequired);
  }

  lemma NameFailures(v: Option<Value>, isEmail: string -> bool)
    ensures v.None? ==> FieldFailure(Name, v, isEmail) == Some(Required)
    ensures v.Some? && v.value.JStr? && |v.value.s| == 1 ==> FieldFailure(Name, v, isEmail) == Some(TooShort(2))
    ensures v.Some? && v.value.JStr? && |v.value.s| > 50 ==> FieldFailure(Name, v, isEmail) == Some(TooLong(50))
  {
    if v.Some? && v.value.JStr? && |v.value.s| >= 2 {
      var x := v.value;
      assert Name.rules[1..] == [MaxLength(50)];
      assert FirstRuleFailure(Name.rules, x, isEmail) == FirstRuleFailure([MaxLength(50)], x, isEmail);
    }
  }

  lemma NameErrors(v: Option<Value>, isEmail: string -> bool)
    ensures v.None? ==> FieldError(Name, v, isEmail) == Some(NameRequired)
    ensures v.Some? && v.value.JStr? && |v.value.s| == 1 ==> FieldError(Name, v, isEmail) == Some(NameTooShort)
    ensures v.Some? && v.value.JStr? && |v.value.s| > 50 ==> FieldError(Name, v, isEmail) == Some(NameTooLong)
  {
    NameFailures(v, isEmail);
    NameMessages();
  }

  lemma NameMessages()
    ensures Message(Name, Required) == NameRequired
    ensures Message(Name, TooShort(2)) == NameTooShort
    ensures Message(Name, TooLong(50)) == NameTooLong
  {
    CustomAt(Name.messages, 0, StringMin);
    CustomAt(Name.messages, 1, StringMax);
    CustomAt(Name.messages, 2, AnyRequired);
  }

  /** An absent phone passes, but one sent empty is rejected like any other string key. */
  lemma PhoneErrors(v: Option<Value>, isEmail: string -> bool)
    ensures v.None? ==> FieldError(Phone, v, isEmail) == None
    ensures v == Some(JStr("")) ==> FieldError(Phone, v, isEmail) == Some(DefaultMessage("phone", Empty))
    ensures v.Some? && v.value.JStr? && v.value.s != "" && !PhoneShape(v.value.s) ==>
      FieldError(Phone, v, isEmail) == Some(PhoneInvalid)
  {
    CustomAt(Phone.messages, 0, StringPatternBase);
    CustomNone(Phone.messages, StringEmpty);
  }

  /** School has no overrides: Joi's own messages are reported. */
  lemma SchoolErrors(v: Option<Value>, isEmail: string -> bool)
    ensures v.None? ==> FieldError(School, v, isEmail) == None
    ensures v.Some? && !v.value.JStr? ==> FieldError(School, v, isEmail) == Some(DefaultMessage("school", NotString))
    ensures v.Some? && v.value.JStr? && |v.value.s| > 100 ==> FieldError(School, v, isEmail) == Some(DefaultMessage("school", TooLong(100)))
  {
  }

  lemma GradeErrors(v: Option<Value>, isEmail: string -> bool)
    ensures v.None? ==> FieldError(Grade, v, isEmail) == Some(GradeRequired)
    ensures v.Some? && !GradeOk(v) ==> FieldError(Grade, v, isEmail) == Some(GradeNotListed)
  {
    GradeRule(v, isEmail);
    CustomAt(Grade.messages, 0, AnyOnly);
    CustomAt(Grade.messages, 1, AnyRequired);
  }

  /** A registration without a username reports only that, whatever else is wrong. */
  lemma MissingUsernameReported(body: Value, isEmail: string -> bool)
    requires body.JObj? && Get(body, "username").None?
    ensures Details(RegisterSchema, body, isEmail) == [UsernameRequired]
  {
    UsernameErrors(Get(body, "username"), isEmail);
    FirstFailureReported(RegisterSchema, body, isEmail, 0);
  }

  /** A registration valid up to its name and sending an empty phone is rejected for the phone. */
  lemma EmptyPhoneReported(body: Value, isEmail: string -> bool)
    requires body.JObj? && UsernameOk(Get(body, "username")) && EmailOk(Get(body, "email"), isEmail)
    requires PasswordOk(Get(body, "password")) && NameOk(Get(body, "name"))
    requires Get(body, "phone") == Some(JStr(""))
    ensures Details(RegisterSchema, body, isEmail) == [DefaultMessage("phone", Empty)]
  {
    forall j | 0 <= j < 4
      ensures FieldFailure(RegisterSchema[j], Get(body, RegisterSchema[j].key), isEmail).None?
    {
      if j == 0 { UsernameRule(Get(body, "username"), isEmail); }
      else if j == 1 { EmailRule(Get(body, "email"), isEmail); }
      else if j == 2 { PasswordRule(Get(body, "password"), isEmail); }
      else { NameRule(Get(body, "name"), isEmail); }
    }
    PhoneErrors(Get(body, "phone"), isEmail);
    assert RegisterSchema[4] == Phone;
    FirstFailureReported(RegisterSchema, body, isEmail, 4);
  }

  // ------------------------------------------------------------ the login schema

  /** The login password: only required. */
  const LoginPassword: Field := Field("password", Text, true, [], [], [(AnyRequired, PasswordRequired)])

  const LoginSchema: seq<Field> := [Email, LoginPassword]

  /** A login body: an object with an accepted email, a non-empty password string, and no other key. */
  predicate ValidLogin(body: Value, isEmail: string -> bool) {
    body.JObj? && EmailOk(Get(body, "email"), isEmail) &&
    Get(body, "password").Some? && Get(body, "password").value.JStr? && Get(body, "password").value.s != "" &&
    forall i | 0 <= i < |body.fields| :: body.fields[i].0 in {"email", "password"}
  }

  /** `loginSchema` accepts exactly the valid login bodies. */
  lemma LoginAccepted(body: Value, isEmail: string -> bool)
    ensures Details(LoginSchema, body, isEmail) == [] <==> ValidLogin(body, isEmail)
  {
    Accepted(LoginSchema, body, isEmail);
    EmailRule(Get(body, "email"), isEmail);
    assert LoginSchema[0] == Email && LoginSchema[1] == LoginPassword;
    assert Keys(LoginSchema) == {"email", "password"};
  }

  lemma LoginErrors(body: Value, isEmail: string -> bool)
    requires body.JObj?
    ensures Get(body, "email").None? ==> Details(LoginSchema, body, isEmail) == [EmailRequired]
    ensures EmailOk(Get(body, "email"), isEmail) && Get(body, "password").None? ==>
      Details(LoginSchema, body, isEmail) == [PasswordRequired]
  {
    EmailErrors(Get(body, "email"), isEmail);
    EmailRule(Get(body, "email"), isEmail);
    CustomAt(LoginPassword.messages, 0, AnyRequired);
    assert LoginSchema[0] == Email && LoginSchema[1] == LoginPassword;
    if Get(body, "email").None? {
      FirstFailureReported(LoginSchema, body, isEmail, 0);
    } else if EmailOk(Get(body, "email"), isEmail) && Get(body, "password").None? {
      FirstFailureReported(LoginSchema, body, isEmail, 1);
    }
  }

  // ------------------------------------------------------------ the assessment-start schema

  const ChapterNotNumber: string := "章节ID必须是数字"
  const ChapterNotInteger: string := "章节ID必须是整数"
  const ChapterNotPositive: string := "章节ID必须是正数"
  const ChapterRequired: string := "章节ID为必填项"
  const CountNotNumber: string := "题目数量必须是数字"
  const CountNotInteger: string := "题目数量必须是整数"
  const CountTooFew: string := "题目数量不能少于5题"
  const CountTooMany: string := "题目数量不能超过20题"

  const ChapterId: Field := Field("chapter_id", Number, true, [], [Integer, Positive], [
    (NumberBase, ChapterNotNumber),
    (NumberInteger, ChapterNotInteger),
    (NumberPositive, ChapterNotPositive),
    (AnyRequired, ChapterRequired)])

  const QuestionCount: Field := Field("question_count", Number, false, [], [Integer, AtLeast(5), AtMost(20)], [
    (NumberBase, CountNotNumber),
    (NumberInteger, CountNotInteger),
    (NumberMin, CountTooFew),
    (NumberMax, CountTooMany)])

  const StartAssessmentSchema: seq<Field> := [ChapterId, QuestionCount]

  /** A present value standing for a positive number. */
  predicate ChapterOk(v: Option<Value>) {
    v.Some? && NumberValue(v.value).Some? && NumberValue(v.value).value > 0
  }

  /** Absent, or standing for a number from 5 to 20. */
  predicate CountOk(v: Option<Value>) {
    v.None? || (NumberValue(v.value).Some? && 5 <= NumberValue(v.value).value <= 20)
  }

  predicate ValidStart(body: Value) {
    body.JObj? && ChapterOk(Get(body, "chapter_id")) && CountOk(Get(body, "question_count")) &&
    forall i | 0 <= i < |body.fields| :: body.fields[i].0 in {"chapter_id", "question_count"}
  }

  /** A number key without a `valid` list: presence, then conversion to a number, then the rules. */
  lemma NumberFieldFailure(f: Field, v: Option<Value>, isEmail: string -> bool)
    requires f.kind == Number && f.only == []
    ensures v.Some? && NumberValue(v.value).None? ==> FieldFailure(f, v, isEmail) == Some(NotNumber)
    ensures v.Some? && NumberValue(v.value).Some? ==>
      FieldFailure(f, v, isEmail) == FirstRuleFailure(f.rules, JNum(NumberValue(v.value).value), isEmail)
  {
  }

  /** The chapter id's rules on a number: only positivity can fail. */
  lemma ChapterRulesAt(n: int, isEmail: string -> bool)
    ensures FirstRuleFailure(ChapterId.rules, JNum(n), isEmail) == if n <= 0 then Some(NotPositive) else None
  {
    assert ChapterId.rules[1..] == [Positive];
  }

  /** The question count's rules on a number: below 5, then above 20. */
  lemma CountRulesAt(n: int, isEmail: string -> bool)
    ensures FirstRuleFailure(QuestionCount.rules, JNum(n), isEmail) ==
      if n < 5 then Some(Below(5)) else if n > 20 then Some(Above(20)) else None
  {
    var x := JNum(n);
    var bounds := [AtLeast(5), AtMost(20)];
    assert QuestionCount.rules[1..] == bounds && bounds[1..] == [AtMost(20)];
    assert FirstRuleFailure(QuestionCount.rules, x, isEmail) == FirstRuleFailure(bounds, x, isEmail);
    if n >= 5 {
      assert FirstRuleFailure(bounds, x, isEmail) == FirstRuleFailure([AtMost(20)], x, isEmail);
    }
  }

  lemma ChapterRule(v: Option<Value>, isEmail: string -> bool)
    ensures FieldFailure(ChapterId, v, isEmail).None? <==> ChapterOk(v)
  {
    NumberFieldFailure(ChapterId, v, isEmail);
    if v.Some? && NumberValue(v.value).Some? {
      ChapterRulesAt(NumberValue(v.value).value, isEmail);
    }
  }

  lemma CountRule(v: Option<Value>, isEmail: string -> bool)
    ensures FieldFailure(QuestionCount, v, isEmail).None? <==> CountOk(v)
  {
    NumberFieldFailure(QuestionCount, v, isEmail);
    if v.Some? && NumberValue(v.value).Some? {
      CountRulesAt(NumberValue(v.value).value, isEmail);
    }
  }

  /** `startAssessmentSchema` accepts exactly the valid bodies. */
  lemma StartAccepted(body: Value, isEmail: string -> bool)
    ensures Details(StartAssessmentSchema, body, isEmail) == [] <==> ValidStart(body)
  {
    Accepted(StartAssessmentSchema, body, isEmail);
    ChapterRule(Get(body, "chapter_id"), isEmail);
    CountRule(Get(body, "question_count"), isEmail);
    assert StartAssessmentSchema[0] == ChapterId && StartAssessmentSchema[1] == QuestionCount;
    assert Keys(StartAssessmentSchema) == {"chapter_id", "question_count"};
  }

  lemma ChapterErrors(v: Option<Value>, isEmail: string -> bool)
    ensures v.None? ==> FieldError(ChapterId, v, isEmail) == Some(ChapterRequired)
    ensures v.Some? && NumberValue(v.value).None? ==> FieldError(ChapterId, v, isEmail) == Some(ChapterNotNumber)
    ensures v.Some? && NumberValue(v.value).Some? && NumberValue(v.value).value <= 0 ==>
      FieldError(ChapterId, v, isEmail) == Some(ChapterNotPositive)
  {
    ChapterMessages();
    NumberFieldFailure(ChapterId, v, isEmail);
    if v.Some? && NumberValue(v.value).Some? {
      ChapterRulesAt(NumberValue(v.value).value, isEmail);
    }
  }

  lemma ChapterMessages()
    ensures Message(ChapterId, Required) == ChapterRequired
    ensures Message(ChapterId, NotNumber) == ChapterNotNumber
    ensures Message(ChapterId, NotPositive) == ChapterNotPositive
  {
    CustomAt(ChapterId.messages, 0, NumberBase);
    CustomAt(ChapterId.messages, 2, NumberPositive);
    CustomAt(ChapterId.messages, 3, AnyRequired);
  }

  lemma CountErrors(v: Option<Value>, isEmail: string -> bool)
    ensures v.None? ==> FieldError(QuestionCount, v, isEmail) == None
    ensures v.Some? && NumberValue(v.value).None? ==> FieldError(QuestionCount, v, isEmail) == Some(CountNotNumber)
    ensures v.Some? && NumberValue(v.value).Some? && NumberValue(v.value).value < 5 ==>
      FieldError(QuestionCount, v, isEmail) == Some(CountTooFew)
    ensures v.Some? && NumberValue(v.value).Some? && NumberValue(v.value).value > 20 ==>
      FieldError(QuestionCount, v, isEmail) == Some(CountTooMany)
  {
    CountMessages();
    NumberFieldFailure(QuestionCount, v, isEmail);
    if v.Some? && NumberValue(v.value).Some? {
      CountRulesAt(NumberValue(v.value).value, isEmail);
    }
  }

  lemma CountMessages()
    ensures Message(QuestionCount, NotNumber) == CountNotNumber
    ensures Message(QuestionCount, Below(5)) == CountTooFew
    ensures Message(QuestionCount, Above(20)) == CountTooMany
  {
    CustomAt(QuestionCount.messages, 0, NumberBase);
    CountBoundMessages();
  }

  lemma CountBoundMessages()
    ensures Message(QuestionCount, Below(5)) == CountTooFew
    ensures Message(QuestionCount, Above(20)) == CountTooMany
  {
    CustomAt(QuestionCount.messages, 2, NumberMin);
    CustomAt(QuestionCount.messages, 3, NumberMax);
  }

  /** A chapter id sent as a numeric string, spaces around it allowed, is accepted as that number. */
  lemma NumericChapterAccepted(n: int, p: string, q: string, isEmail: string -> bool)
    requires n > 0 && AllSpace(p) && AllSpace(q)
    ensures FieldFailure(ChapterId, Some(JStr(p + IntText(n) + q)), isEmail).None?
  {
    NumericTextOfIntText(n, p, q);
    ChapterRule(Some(JStr(p + IntText(n) + q)), isEmail);
  }
}
