/** Generic facts about sequence concatenation, stated once so that proofs about strings can cite them. */
module Seqs {

  lemma EmptyUnit<T>(x: seq<T>)
    ensures [] + x == x && x + [] == x
  {
  }

  lemma TakeDrop<T>(s: seq<T>, a: nat)
    requires a <= |s|
    ensures s[..a] + s[a..] == s
    ensures s[..a] + s[a..] + [] == s
  {
  }

  /** Cutting the second of four pieces at `a`. */
  lemma RegroupAt<T>(p: seq<T>, s: seq<T>, q: seq<T>, r: seq<T>, a: nat)
    requires a <= |s|
    ensures p + s + q + r == (p + s[..a]) + (s[a..] + q + r)
  {
    assert s == s[..a] + s[a..];
  }

  lemma Regroup4<T>(p: seq<T>, s: seq<T>, q: seq<T>, r: seq<T>)
    ensures p + s + q + r == (p + s + q) + r
  {
  }

  lemma ConsSplit<T>(s: seq<T>, u: seq<T>)
    requires s != []
    ensures [s[0]] + (s[1..] + u) == s + u
  {
    assert [s[0]] + s[1..] == s;
  }

  /** `s.slice(0, n)`: the first `n` elements, or all of them when there are fewer. */
  function Take<T>(s: seq<T>, n: nat): (r: seq<T>)
    ensures |r| <= n && |r| <= |s|
    ensures |s| <= n ==> r == s
    ensures n <= |s| ==> |r| == n
    ensures forall i | 0 <= i < |r| :: r[i] == s[i]
  {
    if |s| <= n then s else s[..n]
  }

  /** The elements of `s` in the opposite order. */
  function Reversed<T>(s: seq<T>): (r: seq<T>)
    ensures |r| == |s|
    ensures forall i | 0 <= i < |s| :: r[i] == s[|s| - 1 - i]
  {
    if s == [] then [] else [s[|s| - 1]] + Reversed(s[..|s| - 1])
  }
}
