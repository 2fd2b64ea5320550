/** Worked examples of the pipeline on concrete submissions: the ones a
    reader would check by hand. */
module Scenarios {
  import opened Text
  import opened Matching
  import opened Store
  import opened Pipeline

  /** The rule set of the scenarios: title pattern "recall", text pattern "battery". */
  predicate IsRecallRules(rules: Rules) {
    rules.titleMatches == ["recall"] && rules.textMatches == ["battery"]
  }

  /** Submission A: a self post about a battery recall, id "abc" (its url is any). */
  predicate IsPostA(a: Submission) {
    a.id == "abc" && a.title == "Battery Recall Notice" && a.isSelf && a.selftext == "affected battery packs"
  }

  /** Submission B: a link post whose title mentions a recall, id "def". */
  predicate IsPostB(b: Submission) {
    b.id == "def" && b.title == "Recall announcement" && !b.isSelf
  }

  /** `pat` occurs case-insensitively in `text` at `i`, where `text` holds
      `word`, a spelling of `pat` in other case. */
  lemma FoundAt(text: string, pat: string, word: string, i: nat)
    requires i + |word| <= |text| && text[i..i + |word|] == word
    requires Lower(word) == Lower(pat)
    ensures Contains(Lower(text), Lower(pat))
  {
    LowerSlice(text, i, i + |word|);
    assert OccursAt(Lower(text), Lower(pat), i);
  }

  lemma TitleOfAMatches(rules: Rules, a: Submission)
    requires IsRecallRules(rules) && IsPostA(a)
    ensures TitleMatched(rules, a)
  {
    FoundAt(a.title, "recall", "Recall", 8);
    assert "recall" in rules.titleMatches;
  }

  lemma BodyOfAMatches(rules: Rules, a: Submission)
    requires IsRecallRules(rules) && IsPostA(a)
    ensures TextMatched(rules, a)
  {
    FoundAt(a.selftext, "battery", "battery", 9);
    assert "battery" in rules.textMatches;
  }

  /** A matches on its title and, being a self post, on its body. */
  lemma PostAIsHit(rules: Rules, a: Submission)
    requires IsRecallRules(rules) && IsPostA(a)
    ensures IsHit(rules, a)
  {
    TitleOfAMatches(rules, a);
    BodyOfAMatches(rules, a);
  }

  /** From an empty store, the first sighting of A notifies and leaves the count
      at 1; the second is suppressed with the count at 2. */
  lemma PostATwice(rules: Rules, a: Submission, subreddits: string)
    requires IsRecallRules(rules) && IsPostA(a)
    ensures Run(map[], rules, subreddits, [Arrival(a, []), Arrival(a, [])])
         == ([Notified(Notification(a.url, subreddits, a.title)), Suppressed(2)], map["abc" := 2])
  {
    PostAIsHit(rules, a);
    SameHitTwice(rules, subreddits, a);
  }

  /** B matches on its title but is a link post, so it is not a hit. */
  lemma PostBIsNotAHit(rules: Rules, b: Submission, counts: map<string, int>, subreddits: string, attempts: seq<Attempt>)
    requires IsRecallRules(rules) && IsPostB(b)
    ensures TitleMatched(rules, b)
    ensures Process(counts, rules, subreddits, b, attempts) == (NotAHit, counts)
  {
    FoundAt(b.title, "recall", "Recall", 0);
    assert "recall" in rules.titleMatches;
    LinkPostNoEffect(counts, rules, subreddits, b, attempts);
  }
}
