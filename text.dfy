/**
 * The handful of JavaScript string operations the modelled code relies on:
 * `String.prototype.trim`, the `\s` regular-expression class, ASCII
 * `toLowerCase`, `startsWith`, `includes`, `substring(0, n)` and `split`.
 * Strings are sequences of Unicode scalar values.
 */
module Text {

  /** The characters matched by `\s` and removed by `trim()` (WhiteSpace and LineTerminator). */
  const SpaceChars: seq<char> := [
    ' ', '\n', '\t', '\r', '\U{000B}', '\U{000C}', '\U{00A0}', '\U{1680}',
    '\U{2000}', '\U{2001}', '\U{2002}', '\U{2003}', '\U{2004}', '\U{2005}', '\U{2006}',
    '\U{2007}', '\U{2008}', '\U{2009}', '\U{200A}',
    '\U{2028}', '\U{2029}', '\U{202F}', '\U{205F}', '\U{3000}', '\U{FEFF}']

  predicate IsSpace(c: char) {
    SpaceFrom(c, 0)
  }

  /** `c` is one of `SpaceChars[i..]`. */
  predicate SpaceFrom(c: char, i: nat)
    decreases |SpaceChars| - i
  {
    i < |SpaceChars| && (SpaceChars[i] == c || SpaceFrom(c, i + 1))
  }

  /** No printable ASCII character (letters, digits, punctuation) is whitespace. */
  lemma PrintableIsNotSpace(c: char)
    requires '!' <= c <= '~'
    ensures !IsSpace(c)
  {
    PrintableIsNotSpaceFrom(c, 0);
  }

  lemma {:induction false} PrintableIsNotSpaceFrom(c: char, i: nat)
    requires '!' <= c <= '~'
    ensures !SpaceFrom(c, i)
    decreases |SpaceChars| - i
  {
    if i < |SpaceChars| {
      assert forall k :: 0 <= k < |SpaceChars| ==> !('!' <= SpaceChars[k] <= '~');
      PrintableIsNotSpaceFrom(c, i + 1);
    }
  }

  predicate AllSpace(s: string) {
    forall i :: 0 <= i < |s| ==> IsSpace(s[i])
  }

  lemma NewlineIsSpace()
    ensures IsSpace('\n') && AllSpace("\n")
  {
    assert SpaceChars[1] == '\n';
    assert SpaceFrom('\n', 1);
  }

  lemma AllSpaceJoin(a: string, b: string)
    requires AllSpace(a) && AllSpace(b)
    ensures AllSpace(a + b)
  {
    assert forall i :: 0 <= i < |b| ==> (a + b)[|a| + i] == b[i];
  }

  /** Neither end of `s` is whitespace. */
  predicate IsTrimmed(s: string) {
    s == [] || (!IsSpace(s[0]) && !IsSpace(s[|s| - 1]))
  }

  /** The index of the first non-whitespace character at or after `i` (or `|s|`). */
  function LeadingEnd(s: string, i: nat): (n: nat)
    requires i <= |s|
    ensures i <= n <= |s|
    ensures forall k :: i <= k < n ==> IsSpace(s[k])
    ensures n == |s| || !IsSpace(s[n])
    decreases |s| - i
  {
    if i == |s| || !IsSpace(s[i]) then i else LeadingEnd(s, i + 1)
  }

  /** The index just past the last non-whitespace character before `j` (or 0). */
  function TrailingStart(s: string, j: nat): (e: nat)
    requires j <= |s|
    ensures e <= j
    ensures forall k :: e <= k < j ==> IsSpace(s[k])
    ensures e == 0 || !IsSpace(s[e - 1])
  {
    if j == 0 || !IsSpace(s[j - 1]) then j else TrailingStart(s, j - 1)
  }

  /** The two ensures of LeadingEnd determine it. */
  lemma {:induction false} LeadingEndIs(s: string, i: nat, n: nat)
    requires i <= n <= |s|
    requires forall k :: i <= k < n ==> IsSpace(s[k])
    requires n == |s| || !IsSpace(s[n])
    ensures LeadingEnd(s, i) == n
    decreases n - i
  {
    if i < n {
      LeadingEndIs(s, i + 1, n);
    }
  }

  lemma {:induction false} TrailingStartIs(s: string, j: nat, e: nat)
    requires e <= j <= |s|
    requires forall k :: e <= k < j ==> IsSpace(s[k])
    requires e == 0 || !IsSpace(s[e - 1])
    ensures TrailingStart(s, j) == e
    decreases j - e
  {
    if e < j {
      TrailingStartIs(s, j - 1, e);
    }
  }

  /** `s.trim()`: whitespace removed from both ends. */
  function Trim(s: string): (r: string)
    ensures IsTrimmed(r) && |r| <= |s|
  {
    var a := LeadingEnd(s, 0);
    if a == |s| then ""
    else
      var e := TrailingStart(s, |s|);
      assert !IsSpace(s[a]);
      s[a..e]
  }

  /** What `trim()` keeps is the part of `s` between a whitespace prefix and a whitespace suffix. */
  lemma TrimIsInfix(s: string) returns (k: nat)
    ensures k + |Trim(s)| <= |s| && Trim(s) == s[k..k + |Trim(s)|]
    ensures AllSpace(s[..k]) && AllSpace(s[k + |Trim(s)|..])
  {
    k := LeadingEnd(s, 0);
  }

  /** A string already free of surrounding whitespace is its own `trim()`. */
  lemma TrimTrimmed(s: string)
    requires IsTrimmed(s)
    ensures Trim(s) == s
  {
    if s != [] {
      LeadingEndIs(s, 0, 0);
      TrailingStartIs(s, |s|, |s|);
      TrimAt(s);
    }
  }

  /** `trim()` is idempotent. */
  lemma TrimIdempotent(s: string)
    ensures Trim(Trim(s)) == Trim(s)
  {
    TrimTrimmed(Trim(s));
  }

  /** `s.trimStart()`: whitespace removed from the front only. */
  function TrimStart(s: string): (r: string)
    ensures |r| <= |s| && r == s[|s| - |r|..]
    ensures AllSpace(s[..|s| - |r|])
    ensures r == [] || !IsSpace(r[0])
  {
    s[LeadingEnd(s, 0)..]
  }

  /** Whitespace in front of a string that does not start with whitespace is what `trimStart()` removes. */
  lemma TrimStartOf(p: string, x: string)
    requires AllSpace(p) && (x == [] || !IsSpace(x[0]))
    ensures TrimStart(p + x) == x
  {
    var s := p + x;
    LeadingEndIs(s, 0, |p|);
    assert s[|p|..] == x;
  }

  /** Whitespace added around a string does not change what `trim()` yields. */
  lemma TrimPadded(p: string, s: string, q: string)
    requires AllSpace(p) && AllSpace(q)
    ensures Trim(p + s + q) == Trim(s)
  {
    var x := p + s + q;
    var a := LeadingEnd(s, 0);
    TrimAt(s);
    if a == |s| {
      assert LeadingEnd(x, 0) == |x| by {
        PaddedBlank(p, s, q);
        LeadingEndIs(x, 0, |x|);
      }
      TrimAt(x);
    } else {
      var e := TrailingStart(s, |s|);
      assert LeadingEnd(x, 0) == |p| + a && TrailingStart(x, |x|) == |p| + e by {
        PaddedLeading(p, s, q);
        PaddedTrailing(p, s, q);
      }
      TrimAt(x);
      InfixOfPadded(p, s, q, a, e);
    }
  }

  /** `Trim` in terms of the two boundary indices. */
  lemma TrimAt(s: string)
    ensures LeadingEnd(s, 0) == |s| ==> Trim(s) == ""
    ensures LeadingEnd(s, 0) < |s| ==> Trim(s) == s[LeadingEnd(s, 0)..TrailingStart(s, |s|)]
  {
  }

  lemma PaddedBlank(p: string, s: string, q: string)
    requires AllSpace(p) && AllSpace(q) && LeadingEnd(s, 0) == |s|
    ensures AllSpace(p + s + q)
  {
    var x := p + s + q;
    forall k | 0 <= k < |x| ensures IsSpace(x[k]) {
      if k < |p| { assert x[k] == p[k]; }
      else if k < |p| + |s| { assert x[k] == s[k - |p|]; }
      else { assert x[k] == q[k - |p| - |s|]; }
    }
  }

  lemma PaddedLeading(p: string, s: string, q: string)
    requires AllSpace(p) && LeadingEnd(s, 0) < |s|
    ensures LeadingEnd(p + s + q, 0) == |p| + LeadingEnd(s, 0)
  {
    var x, a := p + s + q, LeadingEnd(s, 0);
    forall k | 0 <= k < |p| + a ensures IsSpace(x[k]) {
      if k < |p| { assert x[k] == p[k]; } else { assert x[k] == s[k - |p|]; }
    }
    assert x[|p| + a] == s[a];
    LeadingEndIs(x, 0, |p| + a);
  }

  lemma PaddedTrailing(p: string, s: string, q: string)
    requires AllSpace(q) && LeadingEnd(s, 0) < |s|
    ensures TrailingStart(p + s + q, |p + s + q|) == |p| + TrailingStart(s, |s|)
  {
    var x, a, e := p + s + q, LeadingEnd(s, 0), TrailingStart(s, |s|);
    assert !IsSpace(s[a]);
    forall k | |p| + e <= k < |x| ensures IsSpace(x[k]) {
      if k < |p| + |s| { assert x[k] == s[k - |p|]; } else { assert x[k] == q[k - |p| - |s|]; }
    }
    assert x[|p| + e - 1] == s[e - 1];
    TrailingStartIs(x, |x|, |p| + e);
  }

  lemma InfixOfPadded<T>(p: seq<T>, s: seq<T>, q: seq<T>, a: nat, e: nat)
    requires a <= e <= |s|
    ensures (p + s + q)[|p| + a..|p| + e] == s[a..e]
  {
    var x := p + s + q;
    forall i | 0 <= i < e - a ensures x[|p| + a..|p| + e][i] == s[a..e][i] {
      assert x[|p| + a + i] == s[a + i];
    }
  }

  /** ASCII case mapping; every other character is left alone. */
  function Lower(c: char): char {
    if 'A' <= c <= 'Z' then (c as int + 32) as char else c
  }

  function Upper(c: char): char {
    if 'a' <= c <= 'z' then (c as int - 32) as char else c
  }

  /** `s.toLowerCase()`, restricted to the ASCII letters. */
  function ToLower(s: string): (r: string)
    ensures |r| == |s|
  {
    seq(|s|, i requires 0 <= i < |s| => Lower(s[i]))
  }

  function ToUpper(s: string): (r: string)
    ensures |r| == |s|
  {
    seq(|s|, i requires 0 <= i < |s| => Upper(s[i]))
  }

  lemma ToLowerAppend(a: string, b: string)
    ensures ToLower(a + b) == ToLower(a) + ToLower(b)
  {
  }

  lemma ToLowerKeepsSpace(s: string)
    ensures AllSpace(s) <==> AllSpace(ToLower(s))
  {
    forall i | 0 <= i < |s| ensures IsSpace(s[i]) <==> IsSpace(ToLower(s)[i]) {
      ToLowerKeepsSpaceAt(s, i);
    }
  }

  lemma ToLowerKeepsSpaceAt(s: string, i: int)
    requires 0 <= i < |s|
    ensures IsSpace(s[i]) <==> IsSpace(ToLower(s)[i])
  {
    if 'A' <= s[i] <= 'Z' {
      PrintableIsNotSpace(s[i]);
      PrintableIsNotSpace(ToLower(s)[i]);
    }
  }

  /** Lower-casing then trimming equals trimming then lower-casing. */
  lemma TrimToLowerCommute(s: string)
    ensures Trim(ToLower(s)) == ToLower(Trim(s))
  {
    var l := ToLower(s);
    forall k | 0 <= k < |s| ensures IsSpace(s[k]) <==> IsSpace(l[k]) {
      ToLowerKeepsSpaceAt(s, k);
    }
    var a := LeadingEnd(s, 0);
    LeadingEndIs(l, 0, a);
    if a < |s| {
      var e := TrailingStart(s, |s|);
      TrailingStartIs(l, |s|, e);
      ToLowerSlice(s, a, e);
    }
  }

  lemma ToLowerSlice(s: string, a: nat, e: nat)
    requires a <= e <= |s|
    ensures ToLower(s)[a..e] == ToLower(s[a..e])
  {
  }

  lemma LowerOfUpper(s: string)
    ensures ToLower(ToUpper(s)) == ToLower(s)
  {
  }

  /** `s.startsWith(p)`. */
  predicate StartsWith(s: string, p: string) {
    |p| <= |s| && s[..|p|] == p
  }

  predicate OccursAt(s: string, p: string, i: int) {
    0 <= i && i + |p| <= |s| && s[i..i + |p|] == p
  }

  /** `s.includes(p)`: `p` occurs somewhere in `s`. */
  predicate Contains(s: string, p: string) {
    exists i | 0 <= i <= |s| - |p| :: OccursAt(s, p, i)
  }

  /** `s.substring(0, n)`. */
  function PrefixOf(s: string, n: nat): (r: string)
    ensures |r| == if |s| <= n then |s| else n
    ensures StartsWith(s, r)
  {
    if |s| <= n then s else s[..n]
  }

  /** Every string contains each of its prefixes. */
  lemma ContainsOwnPrefix(s: string, n: nat)
    ensures Contains(s, PrefixOf(s, n))
  {
    assert OccursAt(s, PrefixOf(s, n), 0);
  }

  /** `s.split(sep)` for a one-character separator: the fields between separators, in order. */
  function Split(s: string, sep: char): (r: seq<string>)
    ensures |r| >= 1
  {
    if s == [] then [""]
    else
      var rest := Split(s[1..], sep);
      if s[0] == sep then [""] + rest else [[s[0]] + rest[0]] + rest[1..]
  }

  /** `parts.join(sep)`. */
  function Join(parts: seq<string>, sep: string): string {
    if parts == [] then ""
    else if |parts| == 1 then parts[0]
    else parts[0] + sep + Join(parts[1..], sep)
  }

  /** Splitting and joining again gives back the original string, and no field holds the separator. */
  lemma {:induction false} SplitJoin(s: string, sep: char)
    ensures Join(Split(s, sep), [sep]) == s
    ensures forall k :: 0 <= k < |Split(s, sep)| ==> sep !in Split(s, sep)[k]
  {
    if s != [] {
      var rest := Split(s[1..], sep);
      SplitJoin(s[1..], sep);
      if s[0] == sep {
        assert Split(s, sep) == [""] + rest;
        assert ([""] + rest)[1..] == rest;
        assert s == [sep] + s[1..];
      } else {
        var r := Split(s, sep);
        assert r == [[s[0]] + rest[0]] + rest[1..];
        assert r[1..] == rest[1..];
        if |rest| > 1 {
          assert Join(rest, [sep]) == rest[0] + [sep] + Join(rest[1..], [sep]);
        }
        assert s == [s[0]] + s[1..];
      }
    }
  }

  /** A string without the separator splits into itself alone. */
  lemma {:induction false} SplitNoSeparator(s: string, sep: char)
    requires sep !in s
    ensures Split(s, sep) == [s]
  {
    if s != [] {
      SplitNoSeparator(s[1..], sep);
      assert [s[0]] + s[1..] == s;
    }
  }

  /** A field free of the separator is split off as the first field. */
  lemma {:induction false} SplitFirstField(a: string, sep: char, b: string)
    requires sep !in a
    ensures Split(a + [sep] + b, sep) == [a] + Split(b, sep)
    decreases |a|
  {
    var s := a + [sep] + b;
    if a == [] {
      assert s[0] == sep && s[1..] == b;
    } else {
      assert s[1..] == a[1..] + [sep] + b;
      SplitFirstField(a[1..], sep, b);
      assert [a[0]] + a[1..] == a;
    }
  }
}
