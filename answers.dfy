/**
 * The answer check shared by assessments and practice:
 * `correct.toLowerCase().trim() === given.toLowerCase().trim()`.
 */
module Answers {
  import opened Text

  predicate AnswersMatch(correct: string, given: string) {
    Trim(ToLower(correct)) == Trim(ToLower(given))
  }

  /** Reference form: trimming first and lower-casing second compares the same strings. */
  lemma MatchByTrimmedLower(correct: string, given: string)
    ensures AnswersMatch(correct, given) <==> ToLower(Trim(correct)) == ToLower(Trim(given))
  {
    TrimToLowerCommute(correct);
    TrimToLowerCommute(given);
  }

  lemma MatchSymmetric(a: string, b: string)
    ensures AnswersMatch(a, b) <==> AnswersMatch(b, a)
  {
  }

  /** Case does not matter: an upper-cased answer matches exactly when the answer does. */
  lemma MatchIgnoresCase(correct: string, given: string)
    ensures AnswersMatch(correct, ToUpper(given)) <==> AnswersMatch(correct, given)
  {
    LowerOfUpper(given);
  }

  /** Surrounding white space does not matter. */
  lemma MatchIgnoresPadding(correct: string, p: string, given: string, q: string)
    requires AllSpace(p) && AllSpace(q)
    ensures AnswersMatch(correct, p + given + q) <==> AnswersMatch(correct, given)
  {
    MatchByTrimmedLower(correct, p + given + q);
    MatchByTrimmedLower(correct, given);
    TrimPadded(p, given, q);
  }
}
