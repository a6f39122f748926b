/**
 * JSON values as the modelled code sees them after `JSON.parse`, JavaScript
 * truthiness and property lookup on them, and the text form written by
 * `JSON.stringify` together with a parser for it. Numbers are integers.
 */
module Json {
  import opened Wrappers

  datatype Value =
    | JNull
    | JBool(b: bool)
    | JNum(n: int)
    | JStr(s: string)
    | JArr(items: seq<Value>)
    | JObj(fields: seq<(string, Value)>)

  /** JavaScript truthiness: `null`, `false`, `0` and `""` are falsy, arrays and objects are truthy. */
  predicate Truthy(v: Value) {
    match v
    case JNull => false
    case JBool(b) => b
    case JNum(n) => n != 0
    case JStr(s) => s != ""
    case JArr(_) => true
    case JObj(_) => true
  }

  /**
   * `v[key]` for a parsed value: objects yield the last field with that key
   * (a repeated key overwrites earlier ones while parsing), anything else
   * yields `undefined`, written `None`.
   */
  function Get(v: Value, key: string): (r: Option<Value>)
    ensures r.Some? <==> v.JObj? && exists i :: 0 <= i < |v.fields| && v.fields[i].0 == key
    decreases if v.JObj? then |v.fields| else 0
  {
    match v
    case JObj(fs) =>
      if fs == [] then None
      else if fs[|fs| - 1].0 == key then Some(fs[|fs| - 1].1)
      else Get(JObj(fs[..|fs| - 1]), key)
    case _ => None
  }

  /** The last field of an object with a given key is what `Get` yields. */
  lemma {:induction false} GetLast(fs: seq<(string, Value)>, i: nat, key: string)
    requires i < |fs| && fs[i].0 == key
    requires forall j :: i < j < |fs| ==> fs[j].0 != key
    ensures Get(JObj(fs), key) == Some(fs[i].1)
    decreases |fs|
  {
    if i < |fs| - 1 {
      GetLast(fs[..|fs| - 1], i, key);
    }
  }

  /** `x || d` where `x` may be `undefined`. */
  function Or(x: Option<Value>, d: Value): (r: Value)
    ensures x.Some? && Truthy(x.value) ==> r == x.value
    ensures !(x.Some? && Truthy(x.value)) ==> r == d
  {
    if x.Some? && Truthy(x.value) then x.value else d
  }

  // ---------------------------------------------------------------------------
  // Text form: JSON.stringify

  const Quote: char := '\"'
  const Backslash: char := '\\'

  function HexDigit(d: nat): (c: char)
    requires d < 16
  {
    if d < 10 then ('0' as int + d) as char else ('a' as int + d - 10) as char
  }

  /** How `JSON.stringify` writes one character of a string. */
  function EscapeChar(c: char): (r: string)
    ensures |r| >= 1
  {
    if c == Quote then [Backslash, Quote]
    else if c == Backslash then [Backslash, Backslash]
    else if c == '\U{0008}' then "\\b"
    else if c == '\U{000C}' then "\\f"
    else if c == '\n' then "\\n"
    else if c == '\r' then "\\r"
    else if c == '\t' then "\\t"
    else if c < ' ' then "\\u00" + [HexDigit(c as int / 16), HexDigit(c as int % 16)]
    else [c]
  }

  function Escape(s: string): string {
    if s == [] then "" else EscapeChar(s[0]) + Escape(s[1..])
  }

  function QuoteString(s: string): string {
    [Quote] + Escape(s) + [Quote]
  }

  function DigitChar(d: nat): (c: char)
    requires d < 10
    ensures IsDigit(c)
  {
    ('0' as int + d) as char
  }

  /** The decimal digits of `n`, most significant first, without leading zeros. */
  function Digits(n: nat): (r: string)
    ensures |r| >= 1 && (forall i :: 0 <= i < |r| ==> IsDigit(r[i]))
    ensures n > 0 ==> r[0] != '0'
  {
    if n < 10 then [DigitChar(n)] else Digits(n / 10) + [DigitChar(n % 10)]
  }

  function IntText(n: int): string {
    if n < 0 then "-" + Digits(-n) else Digits(n)
  }

  /** `JSON.stringify(v)`: no whitespace, fields in their order. */
  function Stringify(v: Value): string
    decreases v, 1
  {
    match v
    case JNull => "null"
    case JBool(b) => if b then "true" else "false"
    case JNum(n) => IntText(n)
    case JStr(s) => QuoteString(s)
    case JArr(items) => "[" + StringifyItems(items) + "]"
    case JObj(fs) => "{" + StringifyFields(fs) + "}"
  }

  function StringifyItems(items: seq<Value>): string
    decreases items, 0
  {
    if items == [] then ""
    else if |items| == 1 then Stringify(items[0])
    else Stringify(items[0]) + "," + StringifyItems(items[1..])
  }

  function StringifyFields(fs: seq<(string, Value)>): string
    decreases fs, 0
  {
    if fs == [] then ""
    else
      var field := fs[0];
      assert field.1 < field;
      var f := StringifyField(field.0, field.1);
      if |fs| == 1 then f else f + "," + StringifyFields(fs[1..])
  }

  function StringifyField(k: string, v: Value): string
    decreases v, 2
  {
    QuoteString(k) + ":" + Stringify(v)
  }

  // ---------------------------------------------------------------------------
  // Text form: JSON.parse

  predicate IsDigit(c: char) {
    '0' <= c <= '9'
  }

  predicate IsWs(c: char) {
    c == ' ' || c == '\t' || c == '\n' || c == '\r'
  }

  /** The input with its leading JSON whitespace removed. */
  function SkipWs(s: string): (r: string)
    ensures |r| <= |s| && r == s[|s| - |r|..]
    ensures r == [] || !IsWs(r[0])
  {
    if s != [] && IsWs(s[0]) then SkipWs(s[1..]) else s
  }

  /** The number of leading decimal digits of `s`. */
  function DigitRun(s: string): (n: nat)
    ensures n <= |s| && (forall i :: 0 <= i < n ==> IsDigit(s[i]))
    ensures n == |s| || !IsDigit(s[n])
  {
    if s != [] && IsDigit(s[0]) then 1 + DigitRun(s[1..]) else 0
  }

  /** The value of a string of decimal digits. */
  function DigitsValue(ds: string): nat
    requires forall i :: 0 <= i < |ds| ==> IsDigit(ds[i])
  {
    if ds == [] then 0
    else
      assert IsDigit(ds[|ds| - 1]);
      DigitsValue(ds[..|ds| - 1]) * 10 + (ds[|ds| - 1] as int - '0' as int)
  }

  /** An optional minus sign, then a natural number. */
  function ParseNumber(s: string): (r: Option<(Value, string)>)
    ensures r.Some? ==> |r.value.1| < |s|
  {
    if s != [] && s[0] == '-' then
      match ParseNatural(s[1..])
      case None => None
      case Some((m, rest)) => Some((JNum(-(m as int)), rest))
    else
      match ParseNatural(s)
      case None => None
      case Some((m, rest)) => Some((JNum(m), rest))
  }

  /** `0` or a digit string not starting with `0`; a fraction or an exponent is rejected. */
  function ParseNatural(t: string): (r: Option<(nat, string)>)
    ensures r.Some? ==> |r.value.1| < |t|
  {
    var n := if t != [] && t[0] == '0' then 1 else DigitRun(t);
    if n == 0 || NumberGoesOn(t[n..]) then None
    else Some((DigitsValue(t[..n]), t[n..]))
  }

  predicate NumberGoesOn(rest: string) {
    rest != [] && (rest[0] == '.' || rest[0] == 'e' || rest[0] == 'E' || IsDigit(rest[0]))
  }

  function HexValue(c: char): Option<nat> {
    if '0' <= c <= '9' then Some(c as int - '0' as int)
    else if 'a' <= c <= 'f' then Some(c as int - 'a' as int + 10)
    else if 'A' <= c <= 'F' then Some(c as int - 'A' as int + 10)
    else None
  }

  /** The character written as four hexadecimal digits after `\u`; surrogate halves are not characters here. */
  function Hex4(s: string): (r: Option<char>)
    requires |s| >= 4
  {
    var h0, h1, h2, h3 := HexValue(s[0]), HexValue(s[1]), HexValue(s[2]), HexValue(s[3]);
    if h0.None? || h1.None? || h2.None? || h3.None? then None
    else
      var v := ((h0.value * 16 + h1.value) * 16 + h2.value) * 16 + h3.value;
      if 0xD800 <= v < 0xE000 then None else Some(v as char)
  }

  /** The character an escape sequence stands for, and the length of the sequence. */
  function Unescape(s: string): (r: Option<(char, nat)>)
    requires |s| >= 1 && s[0] == Backslash
    ensures r.Some? ==> 2 <= r.value.1 <= |s|
  {
    if |s| < 2 then None
    else
      var e := s[1];
      if e == Quote || e == Backslash || e == '/' then Some((e, 2))
      else if e == 'b' then Some(('\U{0008}', 2))
      else if e == 'f' then Some(('\U{000C}', 2))
      else if e == 'n' then Some(('\n', 2))
      else if e == 'r' then Some(('\r', 2))
      else if e == 't' then Some(('\t', 2))
      else if e == 'u' && |s| >= 6 then
        match Hex4(s[2..6])
        case Some(c) => Some((c, 6))
        case None => None
      else None
  }

  /** The body of a string literal up to and including its closing quote. */
  function ParseStringBody(s: string): (r: Option<(string, string)>)
    ensures r.Some? ==> |r.value.1| < |s|
  {
    if s == [] then None
    else if s[0] == Quote then Some(("", s[1..]))
    else if s[0] == Backslash then
      match Unescape(s)
      case None => None
      case Some((c, k)) =>
        match ParseStringBody(s[k..])
        case None => None
        case Some((t, rest)) => Some(([c] + t, rest))
    else if s[0] < ' ' then None
    else
      match ParseStringBody(s[1..])
      case None => None
      case Some((t, rest)) => Some(([s[0]] + t, rest))
  }

  /** The keyword `word` standing for `v`. */
  function ParseLiteral(t: string, word: string, v: Value): (r: Option<(Value, string)>)
    requires |word| > 0
    ensures r.Some? ==> |r.value.1| < |t|
  {
    if |word| <= |t| && t[..|word|] == word then Some((v, t[|word|..])) else None
  }

  /** One value after optional whitespace, and what follows it. */
  function ParseValue(s: string): (r: Option<(Value, string)>)
    ensures r.Some? ==> |r.value.1| < |s|
    decreases |s|, 0
  {
    var t := SkipWs(s);
    if t == [] then None
    else if t[0] == 'n' then ParseLiteral(t, "null", JNull)
    else if t[0] == 't' then ParseLiteral(t, "true", JBool(true))
    else if t[0] == 'f' then ParseLiteral(t, "false", JBool(false))
    else if t[0] == Quote then
      match ParseStringBody(t[1..])
      case None => None
      case Some((str, rest)) => Some((JStr(str), rest))
    else if t[0] == '[' then ParseArray(t[1..])
    else if t[0] == '{' then ParseObject(t[1..])
    else if t[0] == '-' || IsDigit(t[0]) then ParseNumber(t)
    else None
  }

  /** The rest of an array after its `[`. */
  function ParseArray(s: string): (r: Option<(Value, string)>)
    ensures r.Some? ==> |r.value.1| < |s|
    decreases |s|, 2
  {
    var t := SkipWs(s);
    if t != [] && t[0] == ']' then Some((JArr([]), t[1..]))
    else
      match ParseItems(s)
      case None => None
      case Some((items, rest)) => Some((JArr(items), rest))
  }

  /** `value (, value)* ]` */
  function ParseItems(s: string): (r: Option<(seq<Value>, string)>)
    ensures r.Some? ==> |r.value.1| < |s|
    decreases |s|, 1
  {
    match ParseValue(s)
    case None => None
    case Some((v, r1)) =>
      var u := SkipWs(r1);
      if u == [] then None
      else if u[0] == ']' then Some(([v], u[1..]))
      else if u[0] == ',' then
        match ParseItems(u[1..])
        case None => None
        case Some((vs, r2)) => Some(([v] + vs, r2))
      else None
  }

  /** The rest of an object after its `{`. */
  function ParseObject(s: string): (r: Option<(Value, string)>)
    ensures r.Some? ==> |r.value.1| < |s|
    decreases |s|, 2
  {
    var t := SkipWs(s);
    if t != [] && t[0] == '}' then Some((JObj([]), t[1..]))
    else
      match ParseFields(s)
      case None => None
      case Some((fs, rest)) => Some((JObj(fs), rest))
  }

  /** `"key" : value (, "key" : value)* }` */
  function ParseFields(s: string): (r: Option<(seq<(string, Value)>, string)>)
    ensures r.Some? ==> |r.value.1| < |s|
    decreases |s|, 1
  {
    var t := SkipWs(s);
    if t == [] || t[0] != Quote then None
    else
      match ParseStringBody(t[1..])
      case None => None
      case Some((k, r1)) =>
        var u := SkipWs(r1);
        if u == [] || u[0] != ':' then None
        else
          match ParseValue(u[1..])
          case None => None
          case Some((v, r2)) =>
            var w := SkipWs(r2);
            if w == [] then None
            else if w[0] == '}' then Some(([(k, v)], w[1..]))
            else if w[0] == ',' then
              match ParseFields(w[1..])
              case None => None
              case Some((fs, r3)) => Some(([(k, v)] + fs, r3))
            else None
  }

  /** `JSON.parse(s)`, `None` where it would throw. */
  function Parse(s: string): Option<Value> {
    match ParseValue(s)
    case None => None
    case Some((v, rest)) => if SkipWs(rest) == [] then Some(v) else None
  }

  // ---------------------------------------------------------------------------
  // Round trip: JSON.parse(JSON.stringify(v)) gives v back

  /** What may follow a value in generated text: the end, or a separator or closing bracket. */
  predicate Delimits(rest: string) {
    rest == [] || rest[0] == ',' || rest[0] == ']' || rest[0] == '}'
  }

  lemma {:induction false} DigitsValueOf(n: nat)
    ensures DigitsValue(Digits(n)) == n
  {
    if n >= 10 {
      var d := Digits(n / 10);
      assert (d + [DigitChar(n % 10)])[..|d|] == d;
      DigitsValueOf(n / 10);
    }
  }

  lemma {:induction false} DigitRunOf(ds: string, rest: string)
    requires forall i :: 0 <= i < |ds| ==> IsDigit(ds[i])
    requires rest == [] || !IsDigit(rest[0])
    ensures DigitRun(ds + rest) == |ds|
  {
    if ds == [] {
      assert ds + rest == rest;
    } else {
      assert IsDigit(ds[0]);
      assert (ds + rest)[0] == ds[0];
      assert (ds + rest)[1..] == ds[1..] + rest;
      DigitRunOf(ds[1..], rest);
    }
  }

  /** The digits of `m` followed by a delimiter are read back as `m`. */
  lemma NaturalRoundTrip(m: nat, rest: string)
    requires Delimits(rest)
    ensures ParseNatural(Digits(m) + rest) == Some((m, rest))
  {
    var ds := Digits(m);
    var t := ds + rest;
    assert t[0] == ds[0];
    if m == 0 {
      assert ds == "0";
    } else {
      DigitRunOf(ds, rest);
    }
    assert t[..|ds|] == ds && t[|ds|..] == rest;
    DigitsValueOf(m);
  }

  lemma NumberRoundTrip(n: int, rest: string)
    requires Delimits(rest)
    ensures ParseNumber(IntText(n) + rest) == Some((JNum(n), rest))
  {
    if n < 0 {
      NegativeRoundTrip(-n, rest);
    } else {
      NaturalNumberRoundTrip(n, rest);
    }
  }

  lemma NegativeRoundTrip(m: nat, rest: string)
    requires m > 0 && Delimits(rest)
    ensures ParseNumber("-" + Digits(m) + rest) == Some((JNum(-(m as int)), rest))
  {
    var t := Digits(m) + rest;
    var s := "-" + Digits(m) + rest;
    assert s[1..] == t by {
      assert s == "-" + t;
    }
    NaturalRoundTrip(m, rest);
  }

  lemma NaturalNumberRoundTrip(m: nat, rest: string)
    requires Delimits(rest)
    ensures ParseNumber(Digits(m) + rest) == Some((JNum(m), rest))
  {
    var s := Digits(m) + rest;
    assert s[0] != '-' by {
      assert s[0] == Digits(m)[0] && IsDigit(Digits(m)[0]);
    }
    NaturalRoundTrip(m, rest);
  }

  lemma HexDigitValue(d: nat)
    requires d < 16
    ensures HexValue(HexDigit(d)) == Some(d)
  {
  }

  /** Reading back one escaped character. */
  lemma EscapeCharRoundTrip(c: char, tail: string)
    ensures ParseStringBody(EscapeChar(c) + tail) ==
      match ParseStringBody(tail)
      case None => None
      case Some((t, rest)) => Some(([c] + t, rest))
  {
    if c == Quote || c == Backslash || c == '\U{0008}' || c == '\U{000C}' || c == '\n' || c == '\r' || c == '\t' {
      ShortEscapeRoundTrip(c, tail);
    } else if c < ' ' {
      UnicodeEscapeRoundTrip(c, tail);
    } else {
      var s := [c] + tail;
      assert s[0] == c && s[1..] == tail;
    }
  }

  lemma ShortEscapeRoundTrip(c: char, tail: string)
    requires c == Quote || c == Backslash || c == '\U{0008}' || c == '\U{000C}' || c == '\n' || c == '\r' || c == '\t'
    ensures ParseStringBody(EscapeChar(c) + tail) ==
      match ParseStringBody(tail)
      case None => None
      case Some((t, rest)) => Some(([c] + t, rest))
  {
    var s := EscapeChar(c) + tail;
    assert |EscapeChar(c)| == 2 && s[0] == Backslash;
    assert Unescape(s) == Some((c, 2));
    assert s[2..] == tail;
  }

  lemma UnicodeEscapeRoundTrip(c: char, tail: string)
    requires c < ' ' && c != '\U{0008}' && c != '\U{000C}' && c != '\n' && c != '\r' && c != '\t'
    ensures ParseStringBody(EscapeChar(c) + tail) ==
      match ParseStringBody(tail)
      case None => None
      case Some((t, rest)) => Some(([c] + t, rest))
  {
    var h1, h2 := c as int / 16, c as int % 16;
    var e := "\\u00" + [HexDigit(h1), HexDigit(h2)];
    assert EscapeChar(c) == e;
    var s := e + tail;
    HexDigitValue(h1);
    HexDigitValue(h2);
    assert s[2..6] == "00" + [HexDigit(h1), HexDigit(h2)];
    assert Hex4(s[2..6]) == Some(c);
    assert Unescape(s) == Some((c, 6));
    assert s[6..] == tail;
  }

  lemma {:induction false} StringRoundTrip(x: string, rest: string)
    ensures ParseStringBody(Escape(x) + [Quote] + rest) == Some((x, rest))
  {
    if x == [] {
      assert Escape(x) + [Quote] + rest == [Quote] + rest;
    } else {
      var tail := Escape(x[1..]) + [Quote] + rest;
      assert Escape(x) + [Quote] + rest == EscapeChar(x[0]) + tail;
      StringRoundTrip(x[1..], rest);
      EscapeCharRoundTrip(x[0], tail);
      assert [x[0]] + x[1..] == x;
    }
  }

  /** Generated text never starts with whitespace, which the parser would skip. */
  lemma StringifyStart(v: Value)
    ensures |Stringify(v)| > 0 && !IsWs(Stringify(v)[0])
    ensures Stringify(v)[0] != ']' && Stringify(v)[0] != '}'
    ensures v.JNum? ==> Stringify(v)[0] == '-' || IsDigit(Stringify(v)[0])
    ensures v.JStr? ==> Stringify(v)[0] == Quote
    ensures v.JArr? ==> Stringify(v)[0] == '['
    ensures v.JObj? ==> Stringify(v)[0] == '{'
    ensures v.JNull? || v.JBool? ==> Stringify(v)[0] in "ntf"
  {
    if v.JNum? && v.n >= 0 {
      assert Digits(v.n)[0] in "0123456789";
    }
  }

  lemma SkipNoWs(s: string)
    requires s != [] && !IsWs(s[0])
    ensures SkipWs(s) == s
  {
  }

  lemma ParseValueString(s: string)
    requires s != [] && s[0] == Quote
    ensures ParseValue(s) == match ParseStringBody(s[1..])
      case None => None
      case Some((str, rest)) => Some((JStr(str), rest))
  {
    SkipNoWs(s);
  }

  lemma ParseValueArray(s: string)
    requires s != [] && s[0] == '['
    ensures ParseValue(s) == ParseArray(s[1..])
  {
    SkipNoWs(s);
  }

  lemma ParseValueObject(s: string)
    requires s != [] && s[0] == '{'
    ensures ParseValue(s) == ParseObject(s[1..])
  {
    SkipNoWs(s);
  }

  lemma ParseValueNumber(s: string)
    requires s != [] && (s[0] == '-' || IsDigit(s[0]))
    ensures ParseValue(s) == ParseNumber(s)
  {
    SkipNoWs(s);
    assert s[0] != 'n' && s[0] != 't' && s[0] != 'f' && s[0] != Quote && s[0] != '[' && s[0] != '{';
  }

  lemma {:induction false} ValueRoundTrip(v: Value, rest: string)
    requires Delimits(rest)
    ensures ParseValue(Stringify(v) + rest) == Some((v, rest))
    decreases v, 1
  {
    match v
    case JNull => LiteralRoundTrip(v, rest);
    case JBool(_) => LiteralRoundTrip(v, rest);
    case JNum(n) => NumValueRoundTrip(n, rest);
    case JStr(x) => StrValueRoundTrip(x, rest);
    case JArr(items) => ArrValueRoundTrip(items, rest);
    case JObj(fs) => ObjValueRoundTrip(fs, rest);
  }

  lemma LiteralRoundTrip(v: Value, rest: string)
    requires v.JNull? || v.JBool?
    ensures ParseValue(Stringify(v) + rest) == Some((v, rest))
  {
    var s := Stringify(v) + rest;
    SkipNoWs(s);
    if v == JBool(false) {
      assert s[..5] == "false" && s[5..] == rest;
    } else {
      assert s[..4] == Stringify(v) && s[4..] == rest;
    }
  }

  lemma NumValueRoundTrip(n: int, rest: string)
    requires Delimits(rest)
    ensures ParseValue(Stringify(JNum(n)) + rest) == Some((JNum(n), rest))
  {
    var s := IntText(n) + rest;
    StringifyStart(JNum(n));
    ParseValueNumber(s);
    NumberRoundTrip(n, rest);
  }

  lemma StrValueRoundTrip(x: string, rest: string)
    ensures ParseValue(Stringify(JStr(x)) + rest) == Some((JStr(x), rest))
  {
    var s := [Quote] + (Escape(x) + [Quote] + rest);
    assert Stringify(JStr(x)) + rest == s;
    ParseValueString(s);
    StringRoundTrip(x, rest);
  }

  lemma {:induction false} ArrValueRoundTrip(items: seq<Value>, rest: string)
    ensures ParseValue(Stringify(JArr(items)) + rest) == Some((JArr(items), rest))
    decreases JArr(items), 0
  {
    var s := "[" + (StringifyItems(items) + "]" + rest);
    assert Stringify(JArr(items)) + rest == s;
    ParseValueArray(s);
    ArrayRoundTrip(items, rest);
  }

  lemma {:induction false} ObjValueRoundTrip(fs: seq<(string, Value)>, rest: string)
    ensures ParseValue(Stringify(JObj(fs)) + rest) == Some((JObj(fs), rest))
    decreases JObj(fs), 0
  {
    var s := "{" + (StringifyFields(fs) + "}" + rest);
    assert Stringify(JObj(fs)) + rest == s;
    ParseValueObject(s);
    ObjectRoundTrip(fs, rest);
  }

  lemma {:induction false} ArrayRoundTrip(items: seq<Value>, rest: string)
    ensures ParseArray(StringifyItems(items) + "]" + rest) == Some((JArr(items), rest))
    decreases items, 2
  {
    var body := StringifyItems(items) + "]" + rest;
    if items == [] {
      assert body == "]" + rest;
      SkipNoWs(body);
    } else {
      assert body[0] != ']' by {
        ItemsStart(items);
        StringifyStart(items[0]);
      }
      SkipNoWs(body);
      ItemsRoundTrip(items, rest);
    }
  }

  lemma {:induction false} ObjectRoundTrip(fs: seq<(string, Value)>, rest: string)
    ensures ParseObject(StringifyFields(fs) + "}" + rest) == Some((JObj(fs), rest))
    decreases fs, 2
  {
    var body := StringifyFields(fs) + "}" + rest;
    if fs == [] {
      assert body == "}" + rest;
      SkipNoWs(body);
    } else {
      assert body[0] == Quote by { FieldsStart(fs); }
      SkipNoWs(body);
      FieldsRoundTrip(fs, rest);
    }
  }

  lemma ItemsStart(items: seq<Value>)
    requires items != []
    ensures |StringifyItems(items)| > 0 && StringifyItems(items)[0] == Stringify(items[0])[0]
  {
    StringifyStart(items[0]);
  }

  lemma FieldsStart(fs: seq<(string, Value)>)
    requires fs != []
    ensures |StringifyFields(fs)| > 0 && StringifyFields(fs)[0] == Quote
  {
  }

  /** `ParseItems` after a value that is followed by the closing bracket. */
  lemma ParseItemsClose(s: string, v: Value, tail: string)
    requires ParseValue(s) == Some((v, tail))
    requires tail != [] && tail[0] == ']'
    ensures ParseItems(s) == Some(([v], tail[1..]))
  {
    SkipNoWs(tail);
  }

  /** `ParseItems` after a value that is followed by a comma. */
  lemma ParseItemsComma(s: string, v: Value, tail: string)
    requires ParseValue(s) == Some((v, tail))
    requires tail != [] && tail[0] == ','
    ensures ParseItems(s) == match ParseItems(tail[1..])
      case None => None
      case Some((vs, r2)) => Some(([v] + vs, r2))
  {
    SkipNoWs(tail);
    assert tail[0] != ']';
  }

  /** One item's text followed by `tail` parses to that item and what `tail` holds. */
  lemma {:induction false} ItemRoundTrip(v: Value, tail: string)
    requires tail != [] && (tail[0] == ']' || tail[0] == ',')
    ensures ParseItems(Stringify(v) + tail) == if tail[0] == ']' then Some(([v], tail[1..]))
      else match ParseItems(tail[1..])
        case None => None
        case Some((vs, r2)) => Some(([v] + vs, r2))
    decreases v, 2
  {
    ValueRoundTrip(v, tail);
    if tail[0] == ']' {
      ParseItemsClose(Stringify(v) + tail, v, tail);
    } else {
      ParseItemsComma(Stringify(v) + tail, v, tail);
    }
  }

  lemma ItemsText(items: seq<Value>, rest: string)
    requires items != []
    ensures StringifyItems(items) + "]" + rest == Stringify(items[0]) +
      if |items| == 1 then "]" + rest else "," + (StringifyItems(items[1..]) + "]" + rest)
  {
    var f := Stringify(items[0]);
    if |items| == 1 {
      Assoc3(f, "]", rest);
    } else {
      var x := StringifyItems(items[1..]);
      assert StringifyItems(items) == f + "," + x;
      Assoc4(f, ",", x, "]", rest);
    }
  }

  lemma {:induction false} ItemsRoundTrip(items: seq<Value>, rest: string)
    requires items != []
    ensures ParseItems(StringifyItems(items) + "]" + rest) == Some((items, rest))
    decreases items, 0
  {
    var v := items[0];
    assert [v] + items[1..] == items;
    var s := StringifyItems(items) + "]" + rest;
    if |items| == 1 {
      assert [v] == items;
      var tail := "]" + rest;
      assert s == Stringify(v) + tail by { ItemsText(items, rest); }
      assert ParseItems(s) == Some(([v], rest)) by {
        ItemRoundTrip(v, tail);
        assert tail[1..] == rest;
      }
    } else {
      var more := StringifyItems(items[1..]) + "]" + rest;
      var tail := "," + more;
      assert s == Stringify(v) + tail by { ItemsText(items, rest); }
      assert ParseItems(more) == Some((items[1..], rest)) by {
        ItemsRoundTrip(items[1..], rest);
      }
      assert ParseItems(s) == Some(([v] + items[1..], rest)) by {
        ItemRoundTrip(v, tail);
        assert tail[1..] == more;
      }
    }
  }

  /** `ParseFields` after a key, a colon and a value that is followed by the closing brace. */
  lemma ParseFieldsClose(s: string, k: string, r1: string, v: Value, tail: string)
    requires s != [] && s[0] == Quote && ParseStringBody(s[1..]) == Some((k, r1))
    requires r1 != [] && r1[0] == ':' && ParseValue(r1[1..]) == Some((v, tail))
    requires tail != [] && tail[0] == '}'
    ensures ParseFields(s) == Some(([(k, v)], tail[1..]))
  {
    SkipNoWs(s);
    SkipNoWs(r1);
    SkipNoWs(tail);
  }

  /** `ParseFields` after a key, a colon and a value that is followed by a comma. */
  lemma ParseFieldsComma(s: string, k: string, r1: string, v: Value, tail: string)
    requires s != [] && s[0] == Quote && ParseStringBody(s[1..]) == Some((k, r1))
    requires r1 != [] && r1[0] == ':' && ParseValue(r1[1..]) == Some((v, tail))
    requires tail != [] && tail[0] == ','
    ensures ParseFields(s) == match ParseFields(tail[1..])
      case None => None
      case Some((fs, r3)) => Some(([(k, v)] + fs, r3))
  {
    SkipNoWs(s);
    SkipNoWs(r1);
    SkipNoWs(tail);
    assert tail[0] != '}';
  }

  /** The text of one field followed by `tail` parses to its key, its value and `tail`. */
  lemma {:induction false} FieldRoundTrip(k: string, v: Value, tail: string)
    requires tail != [] && (tail[0] == '}' || tail[0] == ',')
    decreases v, 3
    ensures var s := StringifyField(k, v) + tail;
      ParseFields(s) == if tail[0] == '}' then Some(([(k, v)], tail[1..]))
        else match ParseFields(tail[1..])
          case None => None
          case Some((fs, r3)) => Some(([(k, v)] + fs, r3))
  {
    var r1 := ":" + (Stringify(v) + tail);
    var s := StringifyField(k, v) + tail;
    FieldText(k, v, tail);
    KeyRoundTrip(s, k, r1);
    ValueAfterColon(r1, v, tail);
    if tail[0] == '}' {
      ParseFieldsClose(s, k, r1, v, tail);
    } else {
      ParseFieldsComma(s, k, r1, v, tail);
    }
  }

  lemma FieldText(k: string, v: Value, tail: string)
    ensures StringifyField(k, v) + tail == [Quote] + (Escape(k) + [Quote] + (":" + (Stringify(v) + tail)))
  {
    var e, vt := Escape(k), Stringify(v);
    var x := ":" + (vt + tail);
    assert StringifyField(k, v) + tail == QuoteString(k) + x by {
      Assoc4Right(QuoteString(k), ":", vt, tail);
    }
    Assoc4Left([Quote], e, [Quote], x);
  }

  lemma KeyRoundTrip(s: string, k: string, r1: string)
    requires s == [Quote] + (Escape(k) + [Quote] + r1)
    ensures s != [] && s[0] == Quote && ParseStringBody(s[1..]) == Some((k, r1))
  {
    assert s[1..] == Escape(k) + [Quote] + r1;
    StringRoundTrip(k, r1);
  }

  lemma {:induction false} ValueAfterColon(r1: string, v: Value, tail: string)
    requires Delimits(tail) && r1 == ":" + (Stringify(v) + tail)
    ensures r1 != [] && r1[0] == ':' && ParseValue(r1[1..]) == Some((v, tail))
    decreases v, 2
  {
    assert r1[1..] == Stringify(v) + tail;
    ValueRoundTrip(v, tail);
  }

  lemma FieldsText(fs: seq<(string, Value)>, rest: string)
    requires fs != []
    ensures StringifyFields(fs) + "}" + rest == StringifyField(fs[0].0, fs[0].1) +
      if |fs| == 1 then "}" + rest else "," + (StringifyFields(fs[1..]) + "}" + rest)
  {
    var f := StringifyField(fs[0].0, fs[0].1);
    if |fs| == 1 {
      Assoc3(f, "}", rest);
    } else {
      var x := StringifyFields(fs[1..]);
      assert StringifyFields(fs) == f + "," + x;
      Assoc4(f, ",", x, "}", rest);
    }
  }

  lemma Assoc3<T>(a: seq<T>, b: seq<T>, c: seq<T>)
    ensures a + b + c == a + (b + c)
  {
  }

  lemma Assoc4<T>(a: seq<T>, b: seq<T>, c: seq<T>, d: seq<T>, e: seq<T>)
    ensures a + b + c + d + e == a + (b + (c + d + e))
  {
  }

  lemma Assoc4Right<T>(a: seq<T>, b: seq<T>, c: seq<T>, d: seq<T>)
    ensures a + b + c + d == a + (b + (c + d))
  {
  }

  lemma Assoc4Left<T>(a: seq<T>, b: seq<T>, c: seq<T>, d: seq<T>)
    ensures a + b + c + d == a + (b + c + d)
  {
  }

  lemma {:induction false} FieldsRoundTrip(fs: seq<(string, Value)>, rest: string)
    requires fs != []
    ensures ParseFields(StringifyFields(fs) + "}" + rest) == Some((fs, rest))
    decreases fs, 0
  {
    var field := fs[0];
    assert field in fs && field.1 < field;
    var k, v := field.0, field.1;
    assert [(k, v)] + fs[1..] == fs;
    var s := StringifyFields(fs) + "}" + rest;
    if |fs| == 1 {
      assert [(k, v)] == fs;
      var tail := "}" + rest;
      assert s == StringifyField(k, v) + tail by { FieldsText(fs, rest); }
      assert ParseFields(s) == Some(([(k, v)], rest)) by {
        FieldRoundTrip(k, v, tail);
        assert tail[1..] == rest;
      }
    } else {
      var more := StringifyFields(fs[1..]) + "}" + rest;
      var tail := "," + more;
      assert s == StringifyField(k, v) + tail by { FieldsText(fs, rest); }
      assert ParseFields(more) == Some((fs[1..], rest)) by {
        FieldsRoundTrip(fs[1..], rest);
      }
      assert ParseFields(s) == Some(([(k, v)] + fs[1..], rest)) by {
        FieldRoundTrip(k, v, tail);
        assert tail[1..] == more;
      }
    }
  }

  /** `JSON.parse(JSON.stringify(v))` is `v`. */
  lemma ParseStringify(v: Value)
    ensures Parse(Stringify(v)) == Some(v)
  {
    ValueRoundTrip(v, "");
    assert Stringify(v) + "" == Stringify(v);
  }
}
