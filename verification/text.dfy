/** The search predicate `Question.question.ilike("%term%")`: the term occurs
    in the question text, letters compared without regard to case. Case
    folding is ASCII only, and `%`, `_` and `\` in the term are matched literally. */
module Text {

  /** ASCII lower-casing of one character. */
  function Fold(c: char): char {
    if 'A' <= c <= 'Z' then (c as int - 'A' as int + 'a' as int) as char else c
  }

  /** `term` occurs in `text` starting at position `i`, ignoring case. */
  predicate MatchesAt(text: string, term: string, i: nat) {
    i + |term| <= |text| && forall k :: 0 <= k < |term| ==> Fold(text[i + k]) == Fold(term[k])
  }

  /** The reference meaning of `ILIKE '%term%'`: some position of `text` starts a match. */
  ghost predicate ContainsIgnoringCase(text: string, term: string) {
    exists i: nat :: MatchesAt(text, term, i)
  }

  /** The match as the database evaluates it: try each start position left to right. */
  function ILike(text: string, term: string): bool
    decreases |text|
  {
    if |text| < |term| then false
    else if MatchesAt(text, term, 0) then true
    else ILike(text[1..], term)
  }

  /** Dropping the first character of `text` moves every match one place left. */
  lemma ShiftMatch(text: string, term: string, i: nat)
    requires |text| > 0
    ensures MatchesAt(text, term, i + 1) <==> MatchesAt(text[1..], term, i)
  {
  }

  /** The left-to-right scan finds a match exactly when one exists. */
  lemma {:induction false} ILikeIsContainment(text: string, term: string)
    ensures ILike(text, term) <==> ContainsIgnoringCase(text, term)
    decreases |text|
  {
    if |text| < |term| {
      assert forall i: nat :: !MatchesAt(text, term, i);
    } else if !MatchesAt(text, term, 0) {
      ILikeIsContainment(text[1..], term);
      if ContainsIgnoringCase(text, term) {
        var i: nat :| MatchesAt(text, term, i);
        assert i != 0;
        ShiftMatch(text, term, i - 1);
        assert ContainsIgnoringCase(text[1..], term);
      }
      if ContainsIgnoringCase(text[1..], term) {
        var i: nat :| MatchesAt(text[1..], term, i);
        ShiftMatch(text, term, i);
        assert ContainsIgnoringCase(text, term);
      }
    }
  }

  /** Matching ignores case on both sides: "crest" finds "Crest Toothpaste". */
  lemma CrestExample()
    ensures ILike("Crest Toothpaste", "crest")
  {
    assert MatchesAt("Crest Toothpaste", "crest", 0);
  }
}
