/** The match stage of the monitor: a submission is a hit when one of the
    configured title patterns occurs in its title and, for a self post, one of
    the configured text patterns occurs in its body. Both sides of every test
    are lower-cased and the test is a plain substring search. */
module Matching {
  import opened Text

  /** A submission as the stream delivers it (author and creation time are not used). */
  datatype Submission = Submission(id: string, title: string, isSelf: bool, selftext: string, url: string)

  /** The two pattern lists of the configuration (`title_matches`, `text_matches`). */
  datatype Rules = Rules(titleMatches: seq<string>, textMatches: seq<string>)

  /** Some pattern, lower-cased, is a substring of the lower-cased `text`. */
  predicate PatternFound(patterns: seq<string>, text: string) {
    exists p :: p in patterns && Contains(Lower(text), Lower(p))
  }

  predicate TitleMatched(rules: Rules, sub: Submission) {
    PatternFound(rules.titleMatches, sub.title)
  }

  /** Only a self post has a body to search; a link post never passes the text stage. */
  predicate TextMatched(rules: Rules, sub: Submission) {
    sub.isSelf && PatternFound(rules.textMatches, sub.selftext)
  }

  /** The verdict that makes the monitor count the submission. */
  predicate IsHit(rules: Rules, sub: Submission) {
    TitleMatched(rules, sub) && TextMatched(rules, sub)
  }

  /** The flag-setting loop of the match stage, used for titles and bodies alike:
      every pattern is tried (there is no early exit) and any find sets the flag. */
  method AnyPatternFound(patterns: seq<string>, text: string) returns (matched: bool)
    ensures matched <==> PatternFound(patterns, text)
  {
    matched := false;
    for k := 0 to |patterns|
      invariant matched <==> exists j :: 0 <= j < k && Contains(Lower(text), Lower(patterns[j]))
    {
      if Find(Lower(text), Lower(patterns[k])) != -1 {
        matched := true;
      }
    }
  }

  /** Both flags of the match stage. The text stage runs only after a title
      match, and only on a self post. */
  method Evaluate(rules: Rules, sub: Submission) returns (titleMatched: bool, textMatched: bool)
    ensures titleMatched <==> TitleMatched(rules, sub)
    ensures textMatched <==> IsHit(rules, sub)
  {
    textMatched, titleMatched := false, false;
    titleMatched := AnyPatternFound(rules.titleMatches, sub.title);
    if titleMatched {
      if sub.isSelf {
        textMatched := AnyPatternFound(rules.textMatches, sub.selftext);
      }
    }
  }

  /** The order of the configured patterns does not matter. */
  lemma PatternOrderIrrelevant(ps: seq<string>, qs: seq<string>, text: string)
    requires multiset(ps) == multiset(qs)
    ensures PatternFound(ps, text) <==> PatternFound(qs, text)
  {
    forall p | p in ps ensures p in qs {
      assert p in multiset(ps);
    }
    forall p | p in qs ensures p in ps {
      assert p in multiset(qs);
    }
  }

  /** Adding patterns can only turn a non-match into a match. */
  lemma MorePatternsMatchMore(ps: seq<string>, qs: seq<string>, text: string)
    requires forall p :: p in ps ==> p in qs
    ensures PatternFound(ps, text) ==> PatternFound(qs, text)
  {
  }

  /** In an empty text only the empty pattern is found, and it is found in every text. */
  lemma EmptyTextMatchesOnlyEmptyPattern(ps: seq<string>)
    ensures PatternFound(ps, "") <==> "" in ps
  {
    if PatternFound(ps, "") {
      var p :| p in ps && Contains(Lower(""), Lower(p));
      assert |Lower(p)| == 0;
      assert p == "";
    }
    if "" in ps {
      assert OccursAt(Lower(""), Lower(""), 0);
    }
  }

  /** Matching ignores ASCII case in the searched text. */
  lemma MatchIgnoresCase(ps: seq<string>, text: string)
    ensures PatternFound(ps, Lower(text)) <==> PatternFound(ps, text)
  {
    LowerIdempotent(text);
  }
}
