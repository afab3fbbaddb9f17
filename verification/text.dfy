/** Lower-casing of label and field names, as used when names are compared
    without regard to case. Only the ASCII letters are mapped. */
module Text {

  /** The lower-case form of one character: `A`..`Z` become `a`..`z`. */
  function LowerChar(c: char): char
  {
    if 'A' <= c <= 'Z' then (c as int + 32) as char else c
  }

  /** The upper-case partner of a lower-case ASCII letter. */
  function UpperChar(c: char): char
    requires 'a' <= c <= 'z'
  {
    (c as int - 32) as char
  }

  /** `s.lower()` over ASCII. */
  function Lower(s: string): string
  {
    seq(|s|, i requires 0 <= i < |s| => LowerChar(s[i]))
  }

  /** A word made only of lower-case ASCII letters, such as "dev". */
  predicate LowerWord(w: string)
  {
    forall i :: 0 <= i < |w| ==> 'a' <= w[i] <= 'z'
  }

  /** Comparing `Lower(s)` with a lower-case word is a case-insensitive
      match: same length, and every character is the word's letter in
      either case. */
  lemma LowerMatches(s: string, w: string)
    requires LowerWord(w)
    ensures Lower(s) == w <==>
      && |s| == |w|
      && forall i :: 0 <= i < |s| ==> s[i] == w[i] || s[i] == UpperChar(w[i])
  {
    if Lower(s) == w {
      forall i | 0 <= i < |s|
        ensures s[i] == w[i] || s[i] == UpperChar(w[i])
      {
        assert LowerChar(s[i]) == w[i];
      }
    }
    if |s| == |w| && forall i :: 0 <= i < |s| ==> s[i] == w[i] || s[i] == UpperChar(w[i]) {
      forall i | 0 <= i < |s|
        ensures Lower(s)[i] == w[i]
      {
        assert s[i] == w[i] || s[i] == UpperChar(w[i]);
      }
    }
  }

  /** The empty name never equals a non-empty word. */
  lemma EmptyNeverMatches(w: string)
    requires |w| > 0
    ensures Lower("") != w
  {
  }

  lemma LowerExamples()
    ensures Lower("DEV") == "dev"
    ensures Lower("Dev") == "dev"
    ensures Lower("Review") == "review"
    ensures Lower("devs") != "dev"
  {
    LowerMatches("DEV", "dev");
    LowerMatches("Dev", "dev");
    LowerMatches("Review", "review");
  }
}
