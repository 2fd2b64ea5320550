/** The body of the monitor's main loop, one submission at a time: match, then
    count the hit in the durable store, then notify on the first sighting and
    suppress every later one. A failure of the store propagates out of the loop
    and ends the monitor. */
module Pipeline {
  import opened Text
  import opened Matching
  import opened Store

  /** The arguments of one `notify_event(url, subreddit, desc)` call. */
  datatype Notification = Notification(url: string, subreddits: string, description: string)

  /** What happened to one submission. */
  datatype Outcome =
    | NotAHit
    | Notified(note: Notification)
    | Suppressed(hits: int)
    | CounterFailed(failure: Failure)

  /** The submission reached the store and was counted. */
  predicate Counted(o: Outcome) {
    o.Notified? || o.Suppressed?
  }

  /** The reference behaviour for one submission: its outcome and the store after it. */
  function Process(counts: map<string, int>, rules: Rules, subreddits: string, sub: Submission, attempts: seq<Attempt>)
    : (r: (Outcome, map<string, int>))
    ensures r.0.NotAHit? <==> !IsHit(rules, sub)
    ensures r.1 == counts || r.1 == Increment(counts, sub.id)
  {
    if !IsHit(rules, sub) then (NotAHit, counts)
    else
      var (r, after) := RetryIncrement(counts, sub.id, attempts);
      match r
      case Raised(f) => (CounterFailed(f), after)
      case Hits(n) =>
        if n > 1 then (Suppressed(n), after)
        else (Notified(Notification(sub.url, subreddits, sub.title)), after)
  }

  /** One iteration of the main loop over an explicit submission and store. */
  method HandleSubmission(store: CounterStore, rules: Rules, subreddits: string, sub: Submission, attempts: seq<Attempt>)
    returns (o: Outcome)
    modifies store
    ensures (o, store.counts) == Process(old(store.counts), rules, subreddits, sub, attempts)
  {
    o := NotAHit;
    var titleMatched, textMatched := Evaluate(rules, sub);
    if titleMatched && textMatched {
      var hits;
      ghost var made;
      hits, made := GetSubmissionHits(store, sub.id, attempts);
      match hits
      case Raised(f) =>
        o := CounterFailed(f);
      case Hits(n) =>
        if n > 1 {
          o := Suppressed(n);
        } else {
          o := Notified(Notification(sub.url, subreddits, sub.title));
        }
    }
  }

  /** A submission from the stream together with what the store does on each
      attempt to count it. */
  datatype Arrival = Arrival(sub: Submission, attempts: seq<Attempt>)

  /** The reference behaviour of the main loop over a finite stretch of the
      stream: one outcome per submission, up to and including the first
      failure of the store, which ends the loop. */
  function Run(counts: map<string, int>, rules: Rules, subreddits: string, arrivals: seq<Arrival>)
    : (r: (seq<Outcome>, map<string, int>))
    ensures |r.0| <= |arrivals|
    ensures forall j :: 0 <= j < |r.0| - 1 ==> !r.0[j].CounterFailed?
    ensures |r.0| < |arrivals| ==> |r.0| > 0 && r.0[|r.0| - 1].CounterFailed?
    decreases |arrivals|
  {
    if arrivals == [] then ([], counts)
    else
      var (o, after) := Process(counts, rules, subreddits, arrivals[0].sub, arrivals[0].attempts);
      if o.CounterFailed? then ([o], after)
      else
        var (rest, final) := Run(after, rules, subreddits, arrivals[1..]);
        ([o] + rest, final)
  }

  /** `for submission in stream: ...` over the given arrivals. */
  method Monitor(store: CounterStore, rules: Rules, subreddits: string, arrivals: seq<Arrival>)
    returns (outcomes: seq<Outcome>)
    modifies store
    ensures (outcomes, store.counts) == Run(old(store.counts), rules, subreddits, arrivals)
  {
    outcomes := [];
    var i := 0;
    assert arrivals[i..] == arrivals;
    while i < |arrivals|
      invariant 0 <= i <= |arrivals|
      invariant Run(old(store.counts), rules, subreddits, arrivals).0
             == outcomes + Run(store.counts, rules, subreddits, arrivals[i..]).0
      invariant Run(old(store.counts), rules, subreddits, arrivals).1
             == Run(store.counts, rules, subreddits, arrivals[i..]).1
    {
      ghost var before, prefix := store.counts, outcomes;
      assert arrivals[i..][1..] == arrivals[i + 1..];
      var o := HandleSubmission(store, rules, subreddits, arrivals[i].sub, arrivals[i].attempts);
      outcomes := outcomes + [o];
      if o.CounterFailed? {
        assert Run(before, rules, subreddits, arrivals[i..]) == ([o], store.counts);
        assert outcomes == prefix + [o];
        assert outcomes == Run(old(store.counts), rules, subreddits, arrivals).0;
        assert store.counts == Run(old(store.counts), rules, subreddits, arrivals).1;
        return;
      }
      i := i + 1;
    }
    assert arrivals[i..] == [];
    assert outcomes == Run(old(store.counts), rules, subreddits, arrivals).0;
    assert store.counts == Run(old(store.counts), rules, subreddits, arrivals).1;
  }

  /** A submission whose title matches no pattern touches nothing. */
  lemma NoTitleMatchNoEffect(counts: map<string, int>, rules: Rules, subreddits: string, sub: Submission, attempts: seq<Attempt>)
    requires forall p :: p in rules.titleMatches ==> !Contains(Lower(sub.title), Lower(p))
    ensures Process(counts, rules, subreddits, sub, attempts) == (NotAHit, counts)
  {
  }

  /** A link post is never counted or notified, whatever its title. */
  lemma LinkPostNoEffect(counts: map<string, int>, rules: Rules, subreddits: string, sub: Submission, attempts: seq<Attempt>)
    requires !sub.isSelf
    ensures Process(counts, rules, subreddits, sub, attempts) == (NotAHit, counts)
  {
  }

  /** A self post whose body contains no text pattern is never counted or notified. */
  lemma NoTextMatchNoEffect(counts: map<string, int>, rules: Rules, subreddits: string, sub: Submission, attempts: seq<Attempt>)
    requires forall p :: p in rules.textMatches ==> !Contains(Lower(sub.selftext), Lower(p))
    ensures Process(counts, rules, subreddits, sub, attempts) == (NotAHit, counts)
  {
  }

  /** Only a hit is counted. Counting adds exactly one to its id and changes no
      other key, and it notifies exactly when the new count is at most 1; a
      failed count changes nothing. */
  lemma HitCountsOnce(counts: map<string, int>, rules: Rules, subreddits: string, sub: Submission, attempts: seq<Attempt>)
    ensures var (o, after) := Process(counts, rules, subreddits, sub, attempts);
      (Counted(o) ==> IsHit(rules, sub) && after == Increment(counts, sub.id)) &&
      (!Counted(o) ==> after == counts)
    ensures var (o, after) := Process(counts, rules, subreddits, sub, attempts);
      Counted(o) ==>
        Count(after, sub.id) == Count(counts, sub.id) + 1 &&
        forall k :: k != sub.id ==> Count(after, k) == Count(counts, k)
    ensures var (o, after) := Process(counts, rules, subreddits, sub, attempts);
      Counted(o) ==> (o.Notified? <==> Count(after, sub.id) <= 1)
  {
  }

  /** A hit whose count reaches the store within six attempts is notified when
      its id read as at most 0 before, and suppressed with the new count otherwise. */
  lemma HitReachingStore(counts: map<string, int>, rules: Rules, subreddits: string, sub: Submission, attempts: seq<Attempt>, i: nat)
    requires IsHit(rules, sub)
    requires i < MaxAttempts && AttemptAt(attempts, i) == Reached
    requires forall j :: 0 <= j < i ==> AttemptAt(attempts, j) == ConnectionLost
    ensures Process(counts, rules, subreddits, sub, attempts)
         == (if Count(counts, sub.id) >= 1 then Suppressed(Count(counts, sub.id) + 1)
             else Notified(Notification(sub.url, subreddits, sub.title)),
             Increment(counts, sub.id))
  {
    RetrySucceedsWithinSix(counts, sub.id, attempts, i);
  }

  /** A hit on an id the store does not hold, counted within six attempts, is
      notified and leaves the id at 1. */
  lemma FirstHitNotifies(counts: map<string, int>, rules: Rules, subreddits: string, sub: Submission, attempts: seq<Attempt>, i: nat)
    requires IsHit(rules, sub) && sub.id !in counts
    requires i < MaxAttempts && AttemptAt(attempts, i) == Reached
    requires forall j :: 0 <= j < i ==> AttemptAt(attempts, j) == ConnectionLost
    ensures Process(counts, rules, subreddits, sub, attempts).0 == Notified(Notification(sub.url, subreddits, sub.title))
    ensures Process(counts, rules, subreddits, sub, attempts).1 == counts[sub.id := 1]
  {
    HitReachingStore(counts, rules, subreddits, sub, attempts, i);
  }

  /** A hit on an id the store already counted is suppressed, and its count goes up by one. */
  lemma LaterHitSuppressed(counts: map<string, int>, rules: Rules, subreddits: string, sub: Submission, attempts: seq<Attempt>, i: nat)
    requires IsHit(rules, sub) && sub.id in counts && counts[sub.id] >= 1
    requires i < MaxAttempts && AttemptAt(attempts, i) == Reached
    requires forall j :: 0 <= j < i ==> AttemptAt(attempts, j) == ConnectionLost
    ensures Process(counts, rules, subreddits, sub, attempts).0 == Suppressed(counts[sub.id] + 1)
    ensures Process(counts, rules, subreddits, sub, attempts).1 == counts[sub.id := counts[sub.id] + 1]
  {
    HitReachingStore(counts, rules, subreddits, sub, attempts, i);
  }

  /** From an empty store with the store reachable, the first sighting of a hit
      notifies and the second is suppressed with the count at 2. */
  lemma SameHitTwice(rules: Rules, subreddits: string, sub: Submission)
    requires IsHit(rules, sub)
    ensures Run(map[], rules, subreddits, [Arrival(sub, []), Arrival(sub, [])]).0
         == [Notified(Notification(sub.url, subreddits, sub.title)), Suppressed(2)]
    ensures Run(map[], rules, subreddits, [Arrival(sub, []), Arrival(sub, [])]).1 == map[sub.id := 2]
  {
    var note := Notification(sub.url, subreddits, sub.title);
    FirstHitNotifies(map[], rules, subreddits, sub, [], 0);
    LaterHitSuppressed(map[sub.id := 1], rules, subreddits, sub, [], 0);
    assert map[sub.id := 1][sub.id := 2] == map[sub.id := 2];
    var last := [Arrival(sub, [])];
    assert last[1..] == [];
    assert Run(map[sub.id := 2], rules, subreddits, last[1..]).0 == [];
    var tail := Run(map[sub.id := 1], rules, subreddits, last);
    assert tail.0 == [Suppressed(2)] + [];
    assert tail.1 == map[sub.id := 2];
    var arrivals := [Arrival(sub, []), Arrival(sub, [])];
    assert arrivals[1..] == last;
    assert Run(map[], rules, subreddits, arrivals).0 == [Notified(note)] + tail.0;
  }

  /** A hit whose six attempts all lose the connection ends the monitor: no
      notification, no count, and no later arrival is processed. */
  lemma StoreDownEndsMonitor(counts: map<string, int>, rules: Rules, subreddits: string, sub: Submission, attempts: seq<Attempt>, later: seq<Arrival>)
    requires IsHit(rules, sub)
    requires forall j :: 0 <= j < MaxAttempts ==> AttemptAt(attempts, j) == ConnectionLost
    ensures Run(counts, rules, subreddits, [Arrival(sub, attempts)] + later).0 == [CounterFailed(ConnectionError)]
    ensures Run(counts, rules, subreddits, [Arrival(sub, attempts)] + later).1 == counts
  {
    SixLostConnectionsRaise(counts, sub.id, attempts);
    assert ([Arrival(sub, attempts)] + later)[0] == Arrival(sub, attempts);
  }

  /** In a store of positive counts, a counted hit is notified exactly when its
      id was not in the store, and the store stays positive. */
  lemma NotifiedIffFirstSighting(counts: map<string, int>, rules: Rules, subreddits: string, sub: Submission, attempts: seq<Attempt>)
    requires Positive(counts)
    ensures var (o, after) := Process(counts, rules, subreddits, sub, attempts);
      Positive(after) &&
      (Counted(o) ==> (o.Notified? <==> sub.id !in counts)) &&
      (o.Notified? ==> o.note == Notification(sub.url, subreddits, sub.title))
  {
    IncrementKeepsPositive(counts, sub.id);
  }

  /** No submission before position `j` with the id `id` was counted. */
  ghost predicate UncountedBefore(arrivals: seq<Arrival>, outs: seq<Outcome>, j: nat, id: string)
    requires j <= |outs| <= |arrivals|
  {
    forall i :: 0 <= i < j && Counted(outs[i]) ==> arrivals[i].sub.id != id
  }

  /** Being uncounted so far, seen one submission further back. */
  lemma UncountedBeforeCons(a: Arrival, o: Outcome, tail: seq<Arrival>, rest: seq<Outcome>, j: nat, id: string)
    requires 1 <= j <= |rest| + 1 && |rest| <= |tail|
    ensures UncountedBefore([a] + tail, [o] + rest, j, id)
        <==> !(Counted(o) && a.sub.id == id) && UncountedBefore(tail, rest, j - 1, id)
  {
    var arrivals, outs := [a] + tail, [o] + rest;
    if UncountedBefore(arrivals, outs, j, id) {
      forall i | 0 <= i < j - 1 && Counted(rest[i]) ensures tail[i].sub.id != id {
        assert outs[i + 1] == rest[i] && arrivals[i + 1] == tail[i];
      }
      assert outs[0] == o && arrivals[0] == a;
    }
    if !(Counted(o) && a.sub.id == id) && UncountedBefore(tail, rest, j - 1, id) {
      forall i | 0 <= i < j && Counted(outs[i]) ensures arrivals[i].sub.id != id {
        if i > 0 {
          assert outs[i] == rest[i - 1] && arrivals[i] == tail[i - 1];
        }
      }
    }
  }

  /** For the outcomes `outs` of the arrivals, from the store `counts`: a counted
      submission is notified exactly when its id was not in the store and no
      earlier submission with that id was counted. */
  ghost predicate NotifiedExactlyWhenNew(counts: map<string, int>, arrivals: seq<Arrival>, outs: seq<Outcome>)
    requires |outs| <= |arrivals|
  {
    forall j :: 0 <= j < |outs| && Counted(outs[j]) ==>
      (outs[j].Notified? <==> arrivals[j].sub.id !in counts && UncountedBefore(arrivals, outs, j, arrivals[j].sub.id))
  }

  /** Position `j >= 1` of the induction step below: the submission that was at
      `j - 1` in the tail. */
  lemma NotifiedExactlyWhenNewAt(counts: map<string, int>, after: map<string, int>, a: Arrival, o: Outcome, tail: seq<Arrival>, rest: seq<Outcome>, j: nat)
    requires 1 <= j <= |rest| <= |tail|
    requires NotifiedExactlyWhenNew(after, tail, rest)
    requires forall id :: id in after <==> id in counts || (Counted(o) && a.sub.id == id)
    requires Counted(([o] + rest)[j])
    ensures var arrivals, outs := [a] + tail, [o] + rest;
      outs[j].Notified? <==> arrivals[j].sub.id !in counts && UncountedBefore(arrivals, outs, j, arrivals[j].sub.id)
  {
    assert ([o] + rest)[j] == rest[j - 1] && ([a] + tail)[j] == tail[j - 1];
    var id := tail[j - 1].sub.id;
    assert rest[j - 1].Notified? <==> id !in after && UncountedBefore(tail, rest, j - 1, id);
    assert id in after <==> id in counts || (Counted(o) && a.sub.id == id);
    UncountedBeforeCons(a, o, tail, rest, j, id);
  }

  /** The step of the induction below: one more submission in front. */
  lemma NotifiedExactlyWhenNewCons(counts: map<string, int>, after: map<string, int>, a: Arrival, o: Outcome, tail: seq<Arrival>, rest: seq<Outcome>)
    requires |rest| <= |tail|
    requires NotifiedExactlyWhenNew(after, tail, rest)
    requires forall id :: id in after <==> id in counts || (Counted(o) && a.sub.id == id)
    requires Counted(o) ==> (o.Notified? <==> a.sub.id !in counts)
    ensures NotifiedExactlyWhenNew(counts, [a] + tail, [o] + rest)
  {
    var arrivals, outs := [a] + tail, [o] + rest;
    forall j | 0 <= j < |outs| && Counted(outs[j])
      ensures outs[j].Notified? <==> arrivals[j].sub.id !in counts && UncountedBefore(arrivals, outs, j, arrivals[j].sub.id)
    {
      if j == 0 {
        assert outs[0] == o && arrivals[0] == a;
      } else {
        NotifiedExactlyWhenNewAt(counts, after, a, o, tail, rest, j);
      }
    }
  }

  /** Over any stretch of the stream, starting from a store of positive counts,
      a counted submission is notified exactly when its id was not in the store
      and no earlier submission of the stretch with that id was counted. */
  lemma {:induction false} NotifiedOnlyWhenNew(counts: map<string, int>, rules: Rules, subreddits: string, arrivals: seq<Arrival>)
    requires Positive(counts)
    ensures NotifiedExactlyWhenNew(counts, arrivals, Run(counts, rules, subreddits, arrivals).0)
    decreases |arrivals|
  {
    if arrivals != [] {
      var a := arrivals[0];
      var (o, after) := Process(counts, rules, subreddits, a.sub, a.attempts);
      NotifiedIffFirstSighting(counts, rules, subreddits, a.sub, a.attempts);
      HitCountsOnce(counts, rules, subreddits, a.sub, a.attempts);
      if !o.CounterFailed? {
        var tail := arrivals[1..];
        NotifiedOnlyWhenNew(after, rules, subreddits, tail);
        var rest := Run(after, rules, subreddits, tail).0;
        assert Run(counts, rules, subreddits, arrivals).0 == [o] + rest;
        assert arrivals == [a] + tail;
        NotifiedExactlyWhenNewCons(counts, after, a, o, tail, rest);
      }
    }
  }

  /** Starting from a store of positive counts (an empty one, say), at most one
      notification is sent per submission id. */
  lemma NotificationsDistinct(counts: map<string, int>, rules: Rules, subreddits: string, arrivals: seq<Arrival>)
    requires Positive(counts)
    ensures var outs := Run(counts, rules, subreddits, arrivals).0;
      forall i, j :: 0 <= i < j < |outs| && outs[i].Notified? && outs[j].Notified? ==>
        arrivals[i].sub.id != arrivals[j].sub.id
  {
    NotifiedOnlyWhenNew(counts, rules, subreddits, arrivals);
  }
}
