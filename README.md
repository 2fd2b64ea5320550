# subredmonitor: match-and-dedupe core

`subreddit.py` watches a stream of new Reddit submissions. It decides
whether each one is a hit:

- its title contains one of the `title_matches` patterns, ignoring case;
- it is a self post;
- its body contains one of the `text_matches` patterns, ignoring case.

For every hit it increments a per-submission counter in Redis, retrying up to
five times when the connection is lost. It sends a Prowl notification only
when the counter shows the submission has not been counted before. That way a
submission the stream delivers twice, possibly across restarts, notifies once.
The subreddit setting is normalised first: a list of names is joined with `+`,
a single name is used as it is, and any other type makes the monitor exit.

The Dafny model has six modules:

- `Text`: ASCII `lower()` and `find()`. `find() != -1` is proved equivalent to
  substring containment.
- `Matching`: submissions, the rule set and the match predicate as pure
  definitions. The two pattern loops and the three-stage match are methods
  proved against those definitions.
- `Store`: the counter store is a class whose `counts` map is changed by
  `Incr`. A key never incremented reads as 0. `get_submission_hits` is a
  method with the retry loop. The store's connectivity is an input: the
  outcome of each attempt. The method is proved equal to a closed-form
  reference, `RetryIncrement`.
- `Pipeline`: the per-submission handler (`HandleSubmission`) and the monitor
  loop over a finite sequence of arrivals (`Monitor`). Both are proved against
  pure functions (`Process`, `Run`). Lemmas cover the deduplication
  promises: only hits touch the store, the first sighting notifies, later
  sightings are suppressed, and notified ids are pairwise distinct.
- `Config`: the `subreddit` normalisation and the round trip of joining with
  `+` and splitting again.
- `Scenarios`: concrete submissions worked through the pipeline.

On four points that are easy to misread, the model follows the code:

- There is no secondary title list.
- `text_matches` is required. A link post is never a hit, however its title
  matches.
- The notify test is `hits > 1` ⇒ skip, so a count of 1 or less notifies.
- An exception from the counter, such as a sixth lost connection, is not
  caught per submission. It ends the monitor loop.

## Model

| member | source | states |
|---|---|---|
| Text.Lower | subreddit.py:83 | the lower-cased copy has the same length and lower-cases each character in place |
| Text.LowerIdempotent | subreddit.py:83 | lower-casing an already lower-cased string changes nothing |
| Text.LowerSlice | subreddit.py:83 | lower-casing commutes with taking a slice, so an occurrence in the original is an occurrence in the lower-cased copy |
| Text.FindFrom | subreddit.py:83 | returns the first position at or after `from` where the pattern occurs, or -1 exactly when it occurs nowhere from there on |
| Text.Find | subreddit.py:83-89 | `find` returns -1 if and only if the pattern is not a substring; otherwise it returns the lowest index of an occurrence |
| Matching.AnyPatternFound | subreddit.py:82-84 | the loop over a pattern list sets its flag exactly when some pattern occurs in the text, ignoring case |
| Matching.Evaluate | subreddit.py:81-91 | the title flag holds exactly when a title pattern matches; the text flag holds exactly when the title matched, the post is a self post and a text pattern matches the body |
| Matching.PatternFound | subreddit.py:82-84 | reference definition of one pattern loop: some pattern, lower-cased, is a substring of the lower-cased text |
| Matching.TitleMatched | subreddit.py:81-84 | reference definition of the title stage: some title pattern occurs in the title |
| Matching.TextMatched | subreddit.py:86-90 | reference definition of the body stage: the post is a self post and some text pattern occurs in its body |
| Matching.IsHit | subreddit.py:81-91 | reference definition of a hit: the title stage and the body stage both pass |
| Matching.PatternOrderIrrelevant | subreddit.py:82-84 | reordering the patterns (same multiset) does not change whether a text matches |
| Matching.MorePatternsMatchMore | subreddit.py:82-84 | adding patterns never turns a match into a non-match |
| Matching.EmptyTextMatchesOnlyEmptyPattern | subreddit.py:87-90 | an empty body matches exactly when the empty pattern is configured |
| Matching.MatchIgnoresCase | subreddit.py:83-89 | matching a text and matching its lower-cased copy give the same answer |
| Store.Increment | subreddit.py:36 | after `INCR` the key reads one more than before, every other key reads as before, and the key set gains only the key |
| Store.Count | subreddit.py:36 | reference definition of the value a key reads as, 0 for a key never incremented (what `INCR` starts from) |
| Store.CounterStore.constructor | subreddit.py:22 | connecting to the persistent store finds the counts that earlier runs left, unchanged |
| Store.IncrementKeepsPositive | subreddit.py:36 | a store whose counts are all at least 1 keeps that property after an increment |
| Store.CounterStore.Incr | subreddit.py:36 | returns the old value plus one (0 plus one for a new key) and the store becomes the incremented map |
| Store.FirstSettled | subreddit.py:34-40 | the first attempt among the first six that does not lose the connection, with every earlier one lost |
| Store.AttemptsMade | subreddit.py:33-40 | the retry loop makes between one and six attempts |
| Store.AttemptAt | subreddit.py:36-37 | reference definition of what attempt i does; every attempt past the given outcomes reaches the store |
| Store.RetryIncrement | subreddit.py:32-41 | reference outcome of the retry loop: a returned count is the old count plus one with only that key incremented; a raised error leaves the store unchanged |
| Store.GetSubmissionHits | subreddit.py:32-41 | the retry loop returns and changes the store exactly as the reference `RetryIncrement` says, and makes `AttemptsMade` attempts |
| Store.RetrySucceedsWithinSix | subreddit.py:33-36 | if attempt i (i < 6) reaches the store after i lost connections, the result is the incremented count, only that key changes, by one, and i+1 attempts are made |
| Store.SixLostConnectionsRaise | subreddit.py:37-39 | six lost connections in a row raise `ConnectionError`, leave the store unchanged and make six attempts |
| Store.OtherFailurePropagates | subreddit.py:35-37 | a failure other than a lost connection is raised at once without a retry and leaves the store unchanged |
| Store.ThreeFailuresThenSuccess | subreddit.py:32-41 | a store that answers on the fourth attempt still increments exactly once |
| Pipeline.HandleSubmission | subreddit.py:81-99 | handling one submission yields the outcome and new store of the reference `Process` |
| Pipeline.Process | subreddit.py:81-99 | reference outcome for one submission: it is not a hit exactly when the match fails, and the store is either unchanged or incremented once at the submission's id |
| Pipeline.Run | subreddit.py:80-99 | the monitor yields at most one outcome per arrival; only the last outcome can be a counter failure, and a run shorter than the arrivals ends in one |
| Pipeline.Monitor | subreddit.py:80-99 | the monitor loop produces the outcomes and the final store of `Run` |
| Pipeline.NoTitleMatchNoEffect | subreddit.py:81-85 | a submission whose title matches no pattern is not a hit and leaves the store unchanged |
| Pipeline.LinkPostNoEffect | subreddit.py:86 | a link post is not a hit and leaves the store unchanged, whatever its title |
| Pipeline.NoTextMatchNoEffect | subreddit.py:87-91 | a self post whose body matches no text pattern is not a hit and leaves the store unchanged |
| Pipeline.HitCountsOnce | subreddit.py:92-99 | a notified or suppressed submission is a hit and its id is incremented exactly once, with no other key changed; otherwise the store is unchanged; it notifies exactly when the new count is at most 1 |
| Pipeline.HitReachingStore | subreddit.py:92-99 | a hit whose counter attempt reaches the store after at most five lost connections is suppressed with the new count when the id was already counted, and notified otherwise |
| Pipeline.FirstHitNotifies | subreddit.py:92-99 | a hit never seen before, whose count reaches the store within six attempts, notifies with its url, the subreddits and its title, and its count becomes 1 |
| Pipeline.LaterHitSuppressed | subreddit.py:92-97 | a hit already counted, whose count reaches the store within six attempts, is suppressed with the incremented count |
| Pipeline.SameHitTwice | subreddit.py:80-99 | from an empty store, with the store reachable, the same hit delivered twice notifies once and is then suppressed with count 2 |
| Pipeline.StoreDownEndsMonitor | subreddit.py:32-99 | a hit processed while the store refuses six connections ends the monitor with a `ConnectionError`; later arrivals are not processed and the store is unchanged |
| Pipeline.NotifiedIffFirstSighting | subreddit.py:92-99 | on a store of positive counts, a counted hit notifies if and only if its id was absent, and the store stays positive |
| Pipeline.NotifiedOnlyWhenNew | subreddit.py:80-99 | from a store whose counts are all at least 1 (an empty one, say), across a whole run an arrival is notified exactly when it is a counted hit whose id was neither in the starting store nor counted by an earlier arrival |
| Pipeline.NotificationsDistinct | subreddit.py:80-99 | from a store whose counts are all at least 1 (an empty one, say), no two notifications of a run are for the same submission id |
| Config.NormalizeScalar | subreddit.py:70-76 | a string setting is used unchanged; a setting of any other non-list type is refused with its type name |
| Config.NormalizeSubreddits | subreddit.py:70-76 | the setting is accepted exactly when it is a string or a list of strings |
| Config.Join | subreddit.py:71 | `'+'.join`: the result starts with the first name, and every character in it is the separator or comes from one of the names |
| Config.Split | subreddit.py:71 | Python's `str.split`, which the source never calls: used only to state the round trip of the join; returns at least one piece |
| Config.NormalizeEmptyList | subreddit.py:70-71 | an empty list joins to the empty string |
| Config.NormalizeList | subreddit.py:70-71 | a non-empty list of names without `+` is joined so that splitting at `+` gives the names back; a one-name list yields the name |
| Config.NormalizeBadList | subreddit.py:70-71 | a list with a non-string item is refused at the first such item |
| Config.SplitJoin | subreddit.py:71 | joining separator-free names and splitting at the separator is the identity |
| Config.FirstNonString | subreddit.py:71 | locates the first item `join` would reject: every item before it is a string |
| Scenarios.PostAIsHit | subreddit.py:81-91 | a self post titled "Battery Recall Notice" with body "affected battery packs" is a hit for rules "recall"/"battery" |
| Scenarios.PostATwice | subreddit.py:80-99 | that post delivered twice from an empty store, with the store reachable, notifies, then is suppressed with count 2, and the store holds 2 for its id |
| Scenarios.PostBIsNotAHit | subreddit.py:81-86 | a link post titled "Recall announcement" matches on its title but is not a hit and leaves the store unchanged |

## Left out

- Loading `config.yaml` (lines 15-20) and the `KeyError` for a missing `title_matches`, `text_matches` or `subreddit` key are not modelled. Rules are given as two lists of strings. A string-valued setting is not modelled: the loops at lines 82 and 88 would iterate over its characters. A non-string pattern is not modelled either: `.lower()` raises on it at lines 83 and 89, which ends the monitor.
- Creating and verifying the Redis, Prowl and Reddit clients (lines 22-29, 44-51 and 62-68) is left out: each is an external service, and a failed check only exits. The exception is line 22's connection, which is modelled as a `CounterStore` holding the counts earlier runs left.
- `notify_event` (lines 54-59) is modelled as a `Notified` outcome that carries its arguments. The Prowl call, and the swallowing of its exceptions, are external I/O.
- The submission stream (line 80) is an endless network feed. It is modelled as a finite sequence of arrivals.
- The re-fetch through `reddit.submission(id)` (lines 86-87) is treated as returning the same record as the stream.
- `time.sleep(0.5)` (line 41) is a no-op. Timing cannot be observed in the model.
- The `print` logging is not modelled (lines 17, 26, 78 and 93-97). One consequence is left out: for a deleted author, `submission.author.name` (line 93) raises after the counter was incremented. The model goes on to the notify/suppress decision.
- Text.Lower: lower-cases ASCII letters only. Python's `str.lower()` also folds non-ASCII letters and can change a string's length.
- Store.CounterStore.Incr: the store holds unbounded integers. Redis's 64-bit limit and its error on a non-integer value are not modelled.
- Store.GetSubmissionHits: a lost connection is modelled as an increment that did not happen. A reply lost after the server applied `INCR` would count twice, and this is not modelled.
- Store.AttemptAt: every attempt past the end of the given attempt outcomes reaches the store.
- All errors other than `ConnectionError` are one `OtherError`. The model does not tell them apart.
- Pipeline.NotifiedOnlyWhenNew and Pipeline.NotificationsDistinct: these require every count in the starting store to be at least 1. That holds when only `INCR` has written to the store. A key set to 0 or below by something else would notify again, for example a submission delivered twice from a count of -1.
- Concurrent monitors sharing one store are not modelled. `INCR` is taken to be atomic.
